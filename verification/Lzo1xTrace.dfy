/** Every branch of the optimizer does to the instruction at hand what the rules say. */
module Lzo1xTrace {
  import opened Basics
  import opened LzCopy
  import opened Lzo1xFormat
  import opened Lzo1xRewrite
  import opened Lzo1xInvariant
  import opened Lzo1xPeephole

  /** The rule for the instruction at `p`. */
  ghost function RuleAt(orig: seq<octet>, p: nat, s: State, last: Option<Instr>): Action
    requires p <= |orig|
  {
    var r := Step(orig[p..], s);
    if r.None? then Keep else Rule(last, InstrAt(orig[p..], s), Instructions(orig[p..][r.value.0..], r.value.1))
  }

  ghost predicate Tracks(v: View, orig: seq<octet>, p: nat, done: seq<octet>, last: Option<Instr>) {
    Follows(v.b, orig, p, State(v.at, v.out), v.litp, v.lit, done, last)
  }

  lemma HeadFirst(b: seq<octet>, s: State)
    requires Step(b, s).Some?
    ensures InstrAt(b, s).head != [] && InstrAt(b, s).head[0] == b[0] && Instructions(b, s) != [] && Instructions(b, s)[0] == InstrAt(b, s)
  {
    hide Copy, ParseMatch, Length;
  }

  /** The instruction at `p` is this match. */
  lemma MatchInstr(v: View, orig: seq<octet>, data: seq<octet>, p: nat, h: Header)
    requires Inv(v, orig, data, p) && MatchNext(v, p, h) && h.Header?
    ensures 1 <= h.dist <= |v.out| && 2 <= h.size && p + h.size <= |v.b|
    ensures var nl := v.b[p + h.size - 2] % 4;
            var q := p + h.size + nl;
            && q < |v.b| && Copy(v.out, h.dist, h.len)[..|v.out|] == v.out
            && (var s, s' := State(v.at, v.out), State(AfterLits(nl), Copy(v.out, h.dist, h.len) + v.b[p + h.size..q]);
                && Step(orig[p..], s) == Some((q - p, s')) && Run(orig[q..], s') == Some(State(Done, data))
                && InstrAt(orig[p..], s) == Instr(MatchKind(v.b[p], v.at), v.b[p..p + h.size], v.b[p + h.size..q], Copy(v.out, h.dist, h.len)[|v.out|..])
                && orig[p..][q - p..] == orig[q..] && orig[q] == v.b[q])
  {
    hide Run, Step, ParseMatch, Copy, RunAt, MatchAt;
    var b, s := v.b, State(v.at, v.out);
    assert orig[p] == orig[p..][0] == b[p..][0] == b[p];
    MatchFacts(orig, p, s, h, data);
    var k := p + h.size;
    Agree(b, orig, p, k - 2, k);
    assert b[k - 2] == b[k - 2..k][0] == orig[k - 2..k][0] == orig[k - 2];
    var q := k + b[k - 2] % 4;
    Agree(b, orig, p, k, q);
    Agree(b, orig, p, p, k);
    assert orig[q] == orig[p..][q - p] == b[p..][q - p] == b[q];
    assert orig[p..][..h.size] == orig[p..k] && orig[p..][h.size..q - p] == orig[k..q];
    TheInstr(orig[p..], s, h, q - p);
  }

  lemma TheInstr(c: seq<octet>, s: State, h: Header, k: nat)
    requires Step(c, s).Some? && Step(c, s).value.0 == k && c != [] && !(s.mode == Start && c[0] > 17) && !IsRun(c, s.mode)
    requires ParseMatch(c, s.mode) == Some(h) && h.Header? && h.dist <= |s.out| && h.size <= k
    ensures InstrAt(c, s) == Instr(MatchKind(c[0], s.mode), c[..h.size], c[h.size..k], Copy(s.out, h.dist, h.len)[|s.out|..])
  {
    hide Copy, ParseMatch, Step;
  }

  /** The rule, from what the optimizer looks at. */
  lemma RuleIs(v: View, orig: seq<octet>, data: seq<octet>, p: nat, h: Header, done: seq<octet>, last: Option<Instr>)
    requires Inv(v, orig, data, p) && MatchNext(v, p, h) && h.Header? && Tracks(v, orig, p, done, last)
    ensures p + h.size < |v.b| && v.b[p + h.size - 2] % 4 + p + h.size < |v.b|
    ensures RuleAt(orig, p, State(v.at, v.out), last)
         == if v.litp < 0 || v.b[p + h.size - 2] % 4 != 0 then Keep
            else Decision(MatchKind(v.b[p], v.at), v.lit, h.len, v.b[p + h.size])
  {
    hide Inv, Run, Step, Copy, InstrAt, Instructions, Decision, MatchKind;
    MatchInstr(v, orig, data, p, h);
    var nl := v.b[p + h.size - 2] % 4;
    var q := p + h.size + nl;
    var s' := State(AfterLits(nl), Copy(v.out, h.dist, h.len) + v.b[p + h.size..q]);
    StepThere(orig[q..], s', data);
    HeadFirst(orig[q..], s');
    assert orig[q..][0] == orig[q] == v.b[q];
    CopySize(v.out, h.dist, h.len);
    LastIs(v.litp, v.lit, done, last);
  }

  lemma StepThere(b: seq<octet>, s: State, data: seq<octet>)
    requires Run(b, s) == Some(State(Done, data)) && b != []
    ensures Step(b, s).Some?
  {
  }

  lemma CopySize(out: seq<octet>, dist: nat, n: nat)
    requires 1 <= dist <= |out|
    ensures |Copy(out, dist, n)[|out|..]| == n
  {
    hide Copy;
  }

  lemma LastIs(litp: int, lit: nat, done: seq<octet>, last: Option<Instr>)
    requires Placed(litp, lit, done, last)
    ensures litp < 0 <==> last.None? || last.value.kind == Opening
    ensures litp >= 0 ==> lit == |last.value.lits|
  {
  }

  /** A match that is kept. */
  lemma PlainTracks(v: View, orig: seq<octet>, data: seq<octet>, p: nat, h: Header, done: seq<octet>, last: Option<Instr>) returns (i: Instr)
    requires Inv(v, orig, data, p) && MatchNext(v, p, h) && h.Header? && Tracks(v, orig, p, done, last)
    requires RuleAt(orig, p, State(v.at, v.out), last) == Keep
    ensures h.dist <= |v.out| && p + h.size <= |v.b|
    ensures var nl := v.b[p + h.size - 2] % 4;
            var q := p + h.size + nl;
            && q < |v.b|
            && Follows(v.b, orig, q, State(AfterLits(nl), Copy(v.out, h.dist, h.len) + v.b[p + h.size..q]), p + h.size - 2, nl,
                       done + LastBytes(last), Some(i))
  {
    hide Inv, MatchNext, Run, Step, Copy, InstrAt, Instructions, Rule, Follows, Placed;
    MatchInstr(v, orig, data, p, h);
    InvAgrees(v, orig, data, p);
    var nl := v.b[p + h.size - 2] % 4;
    var q := p + h.size + nl;
    var s, s' := State(v.at, v.out), State(AfterLits(nl), Copy(v.out, h.dist, h.len) + v.b[p + h.size..q]);
    i := InstrAt(orig[p..], s);
    FollowsSize(v.b, orig, p, s, v.litp, v.lit, done, last);
    MatchPlaced(done + LastBytes(last), i, nl);
    KeepFollows(v.b, orig, p, s, v.litp, v.lit, done, last, q - p, s', p + h.size - 2, nl);
  }

  lemma FollowsSize(b: seq<octet>, orig: seq<octet>, p: nat, s: State, litp: int, lit: nat, done: seq<octet>, last: Option<Instr>)
    requires Follows(b, orig, p, s, litp, lit, done, last)
    ensures |done + LastBytes(last)| == p
  {
    hide Placed, Instructions, Rewritten, Form, Optimized, Bytes;
  }

  lemma MatchPlaced(before: seq<octet>, i: Instr, nl: nat)
    requires i.kind != LongRun && i.kind != Opening && |i.lits| == nl <= 3 && |i.head| >= 2
    ensures Placed(|before| + |i.head| - 2, nl, before, Some(i))
  {
  }

  lemma InvAgrees(v: View, orig: seq<octet>, data: seq<octet>, p: nat)
    requires Inv(v, orig, data, p)
    ensures |v.b| == |orig| && p < |orig| && v.b[p..] == orig[p..] && Run(orig[p..], State(v.at, v.out)) == Some(State(Done, data))
  {
    hide Run, MatchAt, RunAt;
  }

  /** Literals are always kept. */
  lemma LiteralTracks(v: View, orig: seq<octet>, data: seq<octet>, p: nat, k: nat, n: nat, mode: Mode, done: seq<octet>,
                      last: Option<Instr>, litp: int, lit: nat) returns (i: Instr)
    requires Inv(v, orig, data, p) && Tracks(v, orig, p, done, last) && mode != Done && k > 0
    requires Step(orig[p..], State(v.at, v.out)) == Literals(orig[p..], k, n, v.out, mode) && p + k + n <= |orig|
    requires InstrAt(orig[p..], State(v.at, v.out)).kind in {Opening, LongRun}
    requires Placed(litp, lit, done + LastBytes(last), Some(InstrAt(orig[p..], State(v.at, v.out))))
    ensures Follows(v.b, orig, p + k + n, State(mode, v.out + v.b[p + k..p + k + n]), litp, lit, done + LastBytes(last), Some(i))
  {
    hide Inv, Run, Step, Copy, InstrAt, Instructions, Rewritten, Form, Optimized, Placed;
    InvAgrees(v, orig, data, p);
    var s := State(v.at, v.out);
    assert orig[p..][k..k + n] == orig[p + k..p + k + n];
    Agree(v.b, orig, p, p + k, p + k + n);
    i := InstrAt(orig[p..], s);
    KeepFollows(v.b, orig, p, s, v.litp, v.lit, done, last, k + n, State(mode, v.out + v.b[p + k..p + k + n]), litp, lit);
  }

  /** A long run. */
  lemma RunTracks(v: View, orig: seq<octet>, data: seq<octet>, p: nat, l: (nat, nat), done: seq<octet>, last: Option<Instr>) returns (i: Instr)
    requires Inv(v, orig, data, p) && Tracks(v, orig, p, done, last)
    requires IsRun(v.b[p..], v.at) && Length(v.b[p..], v.b[p], 15) == Some(l) && p + l.1 + l.0 + 3 <= |v.b|
    ensures var q := p + l.1 + l.0 + 3;
            Follows(v.b, orig, q, State(AfterRun, v.out + v.b[p + l.1..q]), p, l.0 + 3, done + LastBytes(last), Some(i))
  {
    hide Inv, Run, Copy, Instructions, Rewritten, Form, Optimized, Length, ParseMatch, Rule;
    InvAgrees(v, orig, data, p);
    var c, s := orig[p..], State(v.at, v.out);
    assert c[0] == v.b[p];
    assert |done + LastBytes(last)| == p;
    assert Length(c, c[0], 15) == Some(l);
    RunInstr(c, s, l);
    i := LiteralTracks(v, orig, data, p, l.1, l.0 + 3, AfterRun, done, last, p, l.0 + 3);
  }

  lemma RunInstr(c: seq<octet>, s: State, l: (nat, nat))
    requires IsRun(c, s.mode) && Length(c, c[0], 15) == Some(l) && l.1 + l.0 + 3 <= |c|
    ensures Step(c, s) == Literals(c, l.1, l.0 + 3, s.out, AfterRun) && Step(c, s).Some?
    ensures InstrAt(c, s) == Instr(LongRun, c[..l.1], c[l.1..l.1 + l.0 + 3], [])
    ensures l.0 >= 1 && l.1 >= 1 && (l.0 < 15 ==> l.1 == 1)
  {
    hide Extension, Copy, ParseMatch;
  }

  /** The literals that open a stream. */
  lemma OpeningTracks(v: View, orig: seq<octet>, data: seq<octet>, done: seq<octet>, last: Option<Instr>) returns (i: Instr)
    requires Inv(v, orig, data, 0) && Tracks(v, orig, 0, done, last) && v.at == Start && v.b[0] > 17 && v.b[0] - 16 <= |v.b|
    requires v.litp < 0 && last.None? && done == []
    ensures var n := v.b[0] - 17;
            Follows(v.b, orig, 1 + n, State(if n < 4 then AfterShort else AfterRun, v.out + v.b[1..1 + n]), v.litp, v.lit, [], Some(i))
  {
    hide Inv, Run, Copy, Instructions, Rewritten, Form, Optimized, Rule;
    InvAgrees(v, orig, data, 0);
    var c, s, n := orig[0..], State(v.at, v.out), v.b[0] - 17;
    assert c[0] == v.b[0..][0] == v.b[0];
    OpeningInstr(c, s);
    i := LiteralTracks(v, orig, data, 0, 1, n, if n < 4 then AfterShort else AfterRun, done, last, v.litp, v.lit);
    assert done + LastBytes(last) == [];
  }

  lemma OpeningInstr(c: seq<octet>, s: State)
    requires s.mode == Start && c != [] && c[0] > 17 && c[0] - 16 <= |c|
    ensures var n := c[0] - 17;
            && Step(c, s) == Literals(c, 1, n, s.out, if n < 4 then AfterShort else AfterRun) && Step(c, s).Some?
            && InstrAt(c, s) == Instr(Opening, c[..1], c[1..1 + n], [])
  {
  }

  lemma CopiedIs(v: View, orig: seq<octet>, data: seq<octet>, p: nat, off: nat, n: nat, len: nat, w: seq<octet>)
    requires Inv(v, orig, data, p) && MatchNext(v, p, Header(n, off, len)) && off <= |v.out| && v.out + w == Copy(v.out, off, len)
    requires p + n <= |v.b| && n >= 2 && v.b[p + n - 2] % 4 == 0
    ensures p + n < |v.b| && |w| == len
    ensures var s := State(v.at, v.out);
            Step(orig[p..], s) == Some((n, State(AfterMatch, v.out + w))) && InstrAt(orig[p..], s).copied == w
    ensures Run(orig[p + n..], State(AfterMatch, v.out + w)) == Some(State(Done, data)) && v.b[p + n..] == orig[p + n..]
  {
    hide Inv, Run, Step, Copy, InstrAt;
    MatchInstr(v, orig, data, p, Header(n, off, len));
    InvAgrees(v, orig, data, p);
    Agree(v.b, orig, p, p + n, p + n);
    assert v.b[p + n..p + n] == [] && v.out + w + [] == v.out + w;
    assert (v.out + w)[|v.out|..] == w;
  }

  /** o_m1_a and o_m3_a follow the rules. */
  lemma WidenTracks(v: View, orig: seq<octet>, data: seq<octet>, p: nat, off: nat, n: nat, w: seq<octet>, c: seq<octet>, done: seq<octet>,
                    last: Option<Instr>) returns (i: Instr)
    requires Inv(v, orig, data, p) && Tracks(v, orig, p, done, last) && Replaceable(v, p, off, n, w) && v.lit + n == 3
    requires WidenEdit(v.b, c, v.litp, p, n, w) && RuleAt(orig, p, State(v.at, v.out), last) == Widen
    ensures Follows(c, orig, p + n, State(AfterMatch, v.out + w), v.litp, 3, done, Some(i))
  {
    hide Inv, MatchNext, Run, Step, Copy, InstrAt, Instructions, Rule, Follows, WidenEdit, Bytes, Relit;
    var s := State(v.at, v.out);
    CopiedIs(v, orig, data, p, off, n, n, w);
    FollowsLast(v.b, orig, p, s, v.litp, v.lit, done, last);
    var l := last.value;
    WidenBytes(v.b, c, done, l, p, v.litp, n, w);
    WidenFollows(v.b, c, orig, p, s, v.litp, v.lit, done, last, n, State(AfterMatch, v.out + w));
    i := Instr(l.kind, Relit(l.head, 3), l.lits + w, l.copied);
  }

  lemma WidenBytes(b: seq<octet>, c: seq<octet>, done: seq<octet>, l: Instr, p: nat, litp: int, n: nat, w: seq<octet>)
    requires p + n <= |b| && b[..p] == done + Bytes(l) && |l.head| >= 2 && litp == |done| + |l.head| - 2 && |w| == n
    requires WidenEdit(b, c, litp, p, n, w)
    ensures |c| == |b| && c[..p + n] == done + (Relit(l.head, 3) + (l.lits + w))
  {
    hide Relit;
    RelitAt(b, done, l, p, litp, 3);
    assert c[..p] == b[..p][litp := b[litp] / 4 * 4 + 3];
    assert c[p..p + n] == w;
    assert c[..p + n] == c[..p] + c[p..p + n];
    assert done + (Relit(l.head, 3) + l.lits) + w == done + (Relit(l.head, 3) + (l.lits + w));
  }

  /** The run behind a match that is replaced. */
  lemma ThenRun(orig: seq<octet>, p: nat, s: State, k: nat, s': State, r: int, data: seq<octet>)
    requires p + k < |orig| && Step(orig[p..], s) == Some((k, s')) && s'.mode == AfterMatch && orig[p + k] == r && 0 < r < 16
    requires Run(orig[p + k..], s') == Some(State(Done, data))
    ensures p + k + 1 + r + 3 <= |orig|
    ensures MatchAndRun(orig, p, s, k, s', r, State(AfterRun, s'.out + orig[p + k + 1..p + k + 1 + r + 3]))
  {
    hide Run, Copy, ParseMatch;
    var c := orig[p + k..];
    assert c[0] == r;
    LiteralFacts(orig, p + k, s', 1, r + 3, AfterRun, data);
    RunInstr(c, s', (r, 1));
    assert c[..1] == [r] && c[1..1 + r + 3] == orig[p + k + 1..p + k + 1 + r + 3];
  }

  /** o_m1_b and o_m3_b follow the rules. */
  lemma NewRunTracks(v: View, orig: seq<octet>, data: seq<octet>, p: nat, off: nat, n: nat, w: seq<octet>, r: nat, c: seq<octet>,
                     done: seq<octet>, last: Option<Instr>) returns (i: Instr)
    requires Inv(v, orig, data, p) && Tracks(v, orig, p, done, last) && Replaceable(v, p, off, n, w) && |w| == n
    requires p == v.litp + 2 + v.lit && LongRunEdit(v.b, c, v.litp, v.lit, p, n, w, r)
    requires 1 <= r < 16 && v.b[p + n] == r && v.lit + n + r < 16 && RuleAt(orig, p, State(v.at, v.out), last) == NewRun
    requires p + n + 1 + r + 3 <= |v.b|
    ensures last.Some?
    ensures var q := p + n + 1 + r + 3;
            Follows(c, orig, q, State(AfterRun, v.out + w + c[p + n + 1..q]), v.litp + 2, v.lit + n + r + 3, done + Relit(last.value.head, 0), Some(i))
  {
    hide Inv, MatchNext, Run, Step, Copy, InstrAt, Instructions, Rule, Follows, LongRunEdit, Placed, MatchAndRun, Relit, RunOf, Bytes;
    var s, s', q := State(v.at, v.out), State(AfterMatch, v.out + w), p + n + 1 + r + 3;
    NewRunSteps(v, orig, data, p, off, n, w, r);
    FollowsLast(v.b, orig, p, s, v.litp, v.lit, done, last);
    var l := last.value;
    LongRunSlices(v.b, c, v.litp, v.lit, p, n, w, r, q);
    NewRunBytes(v.b, c, done, l, p, v.litp, v.lit, n, w, r, q);
    NewRunFollows(v.b, c, orig, p, s, v.litp, v.lit, done, last, n, s', r, State(AfterRun, s'.out + orig[p + n + 1..q]));
    i := RunOf(l.lits + w + orig[p + n + 1..q]);
  }

  /** What the original stream says about a match that is replaced and the run behind it. */
  lemma NewRunSteps(v: View, orig: seq<octet>, data: seq<octet>, p: nat, off: nat, n: nat, w: seq<octet>, r: nat)
    requires Inv(v, orig, data, p) && Replaceable(v, p, off, n, w) && 1 <= r < 16 && v.b[p + n] == r
    ensures p + n + 1 + r + 3 <= |orig| == |v.b| && |w| == n
    ensures var s, s', q := State(v.at, v.out), State(AfterMatch, v.out + w), p + n + 1 + r + 3;
            && MatchAndRun(orig, p, s, n, s', r, State(AfterRun, v.out + w + orig[p + n + 1..q])) && InstrAt(orig[p..], s).copied == w
            && Step(orig[p..], s) == Some((n, s')) && v.b[p + n + 1..q] == orig[p + n + 1..q]
  {
    hide Inv, MatchNext, Run, Step, Copy, InstrAt, Instructions, MatchAndRun;
    CopiedIs(v, orig, data, p, off, n, n, w);
    InvAgrees(v, orig, data, p);
    assert orig[p + n] == orig[p + n..][0] == v.b[p + n..][0] == r;
    ThenRun(orig, p, State(v.at, v.out), n, State(AfterMatch, v.out + w), r, data);
    Agree(v.b, orig, p + n, p + n + 1, p + n + 1 + r + 3);
  }

  lemma FollowsLast(b: seq<octet>, orig: seq<octet>, p: nat, s: State, litp: int, lit: nat, done: seq<octet>, last: Option<Instr>)
    requires Follows(b, orig, p, s, litp, lit, done, last) && litp >= 0 && lit <= 3
    ensures last.Some? && last.value.kind != LongRun && last.value.kind != Opening && |last.value.head| >= 2
    ensures litp == |done| + |last.value.head| - 2 && lit == |last.value.lits| && b[..p] == done + Bytes(last.value)
  {
    hide Instructions, Rewritten, Form, Optimized, Bytes;
    LastMatch(litp, lit, done, last);
  }

  lemma LastMatch(litp: int, lit: nat, done: seq<octet>, last: Option<Instr>)
    requires Placed(litp, lit, done, last) && litp >= 0 && lit <= 3
    ensures last.Some? && last.value.kind != LongRun && last.value.kind != Opening && |last.value.head| >= 2
    ensures litp == |done| + |last.value.head| - 2 && lit == |last.value.lits|
  {
  }

  lemma NewRunBytes(b: seq<octet>, c: seq<octet>, done: seq<octet>, l: Instr, p: nat, litp: nat, lit: nat, n: nat, w: seq<octet>, r: nat, q: nat)
    requires |l.head| >= 2 && litp == |done| + |l.head| - 2 && lit == |l.lits| && p == litp + 2 + lit && p + n < q <= |b| == |c| && |w| == n
    requires b[..p] == done + Bytes(l) && lit + n + r < 16
    requires c[litp] == b[litp] / 4 * 4 && c[litp + 1] == b[litp + 1] && c[litp + 2] == lit + n + r
    requires c[..litp] == b[..litp] && c[litp + 3..p + 1] == b[litp + 2..p] && c[p + 1..p + 1 + n] == w
    requires c[p + 1 + n..q] == b[p + 1 + n..q]
    ensures c[..q] == done + Relit(l.head, 0) + ([lit + n + r] + (l.lits + w + b[p + n + 1..q]))
  {
    hide Relit;
    LitsBytes(b, done, l, p, litp);
    HeadBytes(b, c, done, l, p, litp);
    hide Bytes;
    Five(c, litp + 2, p + 1, p + 1 + n, q);
  }

  lemma LitsBytes(b: seq<octet>, done: seq<octet>, l: Instr, p: nat, litp: nat)
    requires |l.head| >= 2 && litp == |done| + |l.head| - 2 && p == litp + 2 + |l.lits| <= |b| && b[..p] == done + Bytes(l)
    ensures b[litp + 2..p] == l.lits
  {
    assert b[litp + 2..p] == b[..p][litp + 2..];
  }

  lemma Five(c: seq<octet>, i: nat, j: nat, k: nat, q: nat)
    requires i < j <= k <= q <= |c|
    ensures c[..q] == c[..i] + ([c[i]] + (c[i + 1..j] + c[j..k] + c[k..q]))
  {
  }

  lemma HeadBytes(b: seq<octet>, c: seq<octet>, done: seq<octet>, l: Instr, p: nat, litp: nat)
    requires |l.head| >= 2 && litp == |done| + |l.head| - 2 && litp + 2 <= p <= |b| == |c| && b[..p] == done + Bytes(l)
    requires c[..litp] == b[..litp] && c[litp] == b[litp] / 4 * 4 && c[litp + 1] == b[litp + 1]
    ensures c[..litp + 2] == done + Relit(l.head, 0)
  {
    var x := done + Relit(l.head, 0);
    assert |x| == litp + 2;
    forall k | 0 <= k < litp + 2 ensures c[k] == x[k] {
      assert b[k] == b[..p][k] == (done + Bytes(l))[k];
      if k < litp {
        assert c[k] == c[..litp][k] == b[..litp][k];
      }
    }
  }

  /** o_m2 follows the rules. */
  lemma JoinTracks(v: View, orig: seq<octet>, data: seq<octet>, p: nat, off: nat, w: seq<octet>, r: nat, c: seq<octet>, done: seq<octet>,
                   last: Option<Instr>) returns (i: Instr)
    requires Inv(v, orig, data, p) && Tracks(v, orig, p, done, last) && MatchNext(v, p, Header(2, off, 3)) && v.litp >= 0 && v.lit > 3
    requires 1 <= off <= |v.out| && v.out + w == Copy(v.out, off, 3)
    requires p + 2 < |v.b| && v.b[p] % 4 == 0 && v.b[p + 2] == r && 1 <= r < 16 && v.lit + 3 + r < 16
    requires JoinEdit(v.b, c, v.litp, v.lit + 3 + r, p, w)
    requires RuleAt(orig, p, State(v.at, v.out), last) == Join && p + 3 + r + 3 <= |v.b|
    ensures var q := p + 3 + r + 3;
            Follows(c, orig, q, State(AfterRun, v.out + w + v.b[p + 3..q]), v.litp, v.lit + 3 + r + 3, done, Some(i))
  {
    hide Inv, MatchNext, Run, Step, Copy, InstrAt, Instructions, Rule, Rewritten, Form, Optimized, JoinEdit, Placed, MatchAndRun, Bytes;
    CopiedIs(v, orig, data, p, off, 2, 3, w);
    LastRun(v.litp, v.lit, done, last);
    var l, s, s', q := last.value, State(v.at, v.out), State(AfterMatch, v.out + w), p + 3 + r + 3;
    assert orig[p + 2] == orig[p + 2..][0] == v.b[p + 2..][0] == r;
    ThenRun(orig, p, s, 2, s', r, data);
    Agree(v.b, orig, p + 2, p + 3, q);
    JoinBytes(v.b, c, done, l, p, v.litp, v.lit, w, r, q);
    JoinFollows(v.b, c, orig, p, s, v.litp, v.lit, done, last, 2, s', r, State(AfterRun, s'.out + orig[p + 3..q]));
    i := RunOf(l.lits + w + orig[p + 3..q]);
  }

  lemma LastRun(litp: int, lit: nat, done: seq<octet>, last: Option<Instr>)
    requires Placed(litp, lit, done, last) && litp >= 0 && lit > 3
    ensures last.Some? && last.value.kind == LongRun && litp == |done| && lit == |last.value.lits| && (lit < 18 ==> |last.value.head| == 1)
  {
  }

  lemma JoinBytes(b: seq<octet>, c: seq<octet>, done: seq<octet>, l: Instr, p: nat, litp: nat, lit: nat, w: seq<octet>, r: nat, q: nat)
    requires |l.head| == 1 && litp == |done| && lit == |l.lits| && p + 3 <= q <= |b| && |w| == 3 && lit + 3 + r < 16
    requires b[..p] == done + Bytes(l) && JoinEdit(b, c, litp, lit + 3 + r, p, w)
    ensures |c| == |b| && c[..q] == done + ([lit + 3 + r] + (l.lits + w + b[p + 3..q]))
  {
    var x := done + ([lit + 3 + r] + (l.lits + w + b[p + 3..q]));
    assert |x| == q;
    forall k | 0 <= k < q ensures c[k] == x[k] {
      if k < p {
        assert b[k] == b[..p][k] == (done + Bytes(l))[k];
      }
    }
  }

  /** The end marker follows the rules. */
  lemma MarkerTracks(v: View, orig: seq<octet>, data: seq<octet>, p: nat, h: Header, done: seq<octet>, last: Option<Instr>)
    requires Inv(v, orig, data, p) && Tracks(v, orig, p, done, last) && MatchNext(v, p, h) && h.Marker?
    ensures v.b == Optimized(orig)
  {
    hide Inv, Run, Copy, Instructions, Rewritten, Form, Optimized, ParseMatch, Placed;
    InvAgrees(v, orig, data, p);
    var s := State(v.at, v.out);
    assert orig[p] == orig[p..][0] == v.b[p..][0] == v.b[p];
    NotDone(v, orig, data, p);
    MarkerFacts(orig, p, s, h, data);
    EndFollows(v.b, orig, p, s, v.litp, v.lit, done, last);
  }

  lemma NotDone(v: View, orig: seq<octet>, data: seq<octet>, p: nat)
    requires Inv(v, orig, data, p)
    ensures v.at != Done
  {
    hide Run, MatchAt, RunAt;
  }

  // ---- Two runs around a match, as streams

  const MARK: seq<octet> := [17, 0, 0]

  ghost function TwoRuns(a: seq<octet>, c: seq<octet>): seq<octet>
    requires 4 <= |a| < 19 && 4 <= |c| < 19
  {
    [|a| - 3] + a + ([64, 0] + ([|c| - 3] + c + MARK))
  }

  lemma RunFirst(a: seq<octet>, rest: seq<octet>, s: State)
    requires 4 <= |a| < 19 && s.mode in {Start, AfterMatch}
    ensures Instructions([|a| - 3] + a + rest, s) == [RunOf(a)] + Instructions(rest, State(AfterRun, s.out + a))
  {
    hide Run, Copy, ParseMatch, Length, InstrAt, Step, Instructions;
    var b := [|a| - 3] + a + rest;
    assert b[0] == |a| - 3 && b[..1] == [|a| - 3] && b[1..1 + |a|] == a && b[1 + |a|..] == rest;
    ShortLength(b, |a| - 3);
    RunInstr(b, s, (|a| - 3, 1));
    InstrBytes(b, s);
    assert Instructions(b, s) == [Instructions(b, s)[0]] + Instructions(b, s)[1..];
  }

  lemma ShortLength(b: seq<octet>, t: nat)
    requires t > 0
    ensures Length(b, t, 15) == Some((t, 1))
  {
  }

  lemma MatchFirst(rest: seq<octet>, out: seq<octet>)
    requires out != []
    ensures var z := out[|out| - 1];
            Instructions([64, 0] + rest, State(AfterRun, out)) == [Instr(M2, [64, 0], [], [z, z, z])] + Instructions(rest, State(AfterMatch, out + [z, z, z]))
  {
    var b, s, z := [64, 0] + rest, State(AfterRun, out), out[|out| - 1];
    assert b[0] == 64 && b[..2] == [64, 0] && b[2..] == rest && b[2..2] == [];
    CopyThree(out, 1);
    assert ParseMatch(b, AfterRun) == Some(Header(2, 1, 3));
    hide Copy, ParseMatch, Instructions;
    var o := Copy(out, 1, 3);
    assert o == out + [z, z, z] && o[|out|..] == [z, z, z] && o + [] == o;
    assert Step(b, s) == Some((2, State(AfterMatch, o)));
    InstrBytes(b, s);
    assert Instructions(b, s) == [Instructions(b, s)[0]] + Instructions(b, s)[1..];
  }

  lemma MarkFirst(s: State)
    requires s.mode == AfterRun
    ensures Instructions(MARK, s) == [Instr(End, MARK, [], [])]
  {
    assert Length(MARK, 1, 7) == Some((1, 1));
    assert ParseMatch(MARK, AfterRun) == Some(Marker(3));
    hide ParseMatch, Instructions;
    InstrBytes(MARK, s);
    NothingLeft(State(Done, s.out));
    assert MARK[..3] == MARK && MARK[3..] == [];
    assert Instructions(MARK, s) == [Instructions(MARK, s)[0]] + Instructions(MARK, s)[1..];
  }

  lemma TwoRunsList(a: seq<octet>, c: seq<octet>)
    requires 4 <= |a| < 19 && 4 <= |c| < 19
    ensures var z := a[|a| - 1];
            Instructions(TwoRuns(a, c), INIT) == [RunOf(a), Instr(M2, [64, 0], [], [z, z, z]), RunOf(c), Instr(End, MARK, [], [])]
  {
    hide Instructions, RunOf;
    var out, z, r := [] + a, a[|a| - 1], [|c| - 3] + c + MARK;
    assert out == a;
    RunFirst(a, [64, 0] + r, INIT);
    MatchFirst(r, out);
    RunFirst(c, MARK, State(AfterMatch, out + [z, z, z]));
    MarkFirst(State(AfterRun, out + [z, z, z] + c));
  }

  lemma KeptFirst(last: Option<Instr>, i: Instr, rest: seq<Instr>)
    requires Rule(last, i, rest) == Keep
    ensures Rewritten(last, [i] + rest) == Prefixed(last, Rewritten(Some(i), rest))
  {
    hide Rule;
    assert ([i] + rest)[1..] == rest;
  }

  lemma OnlyOne(i: Instr)
    ensures Rewritten(Some(i), []) == [i]
  {
  }

  lemma Joined(i: Instr, j: Instr, k: Instr, rest: seq<Instr>)
    requires Rule(Some(i), j, [k] + rest) == Join
    ensures Rewritten(Some(i), [j, k] + rest) == Rewritten(Some(RunOf(i.lits + j.copied + k.lits)), rest)
  {
    hide Rule;
    assert ([j, k] + rest)[1..] == [k] + rest && ([k] + rest)[1..] == rest;
  }

  lemma FormTwo(i: Instr, j: Instr)
    ensures Form([i, j]) == Bytes(i) + Bytes(j)
  {
    FormFirst(i, [j]);
    FormFirst(j, []);
    assert [i] + [j] == [i, j] && [j] + [] == [j];
  }

  /** The match between two runs joins them exactly when the new count fits into four bits. */
  lemma RunsJoined(a: seq<octet>, c: seq<octet>)
    requires 4 <= |a| < 19 && 4 <= |c| < 19
    ensures var z := a[|a| - 1];
            Optimized(TwoRuns(a, c)) == if |a| + |c| < 16 then [|a| + |c|] + (a + [z, z, z] + c) + MARK else TwoRuns(a, c)
  {
    var z := a[|a| - 1];
    var i, j, k, e := RunOf(a), Instr(M2, [64, 0], [], [z, z, z]), RunOf(c), Instr(End, MARK, [], []);
    TwoRunsList(a, c);
    hide Rewritten, Instructions, Form, TwoRuns;
    assert [i] + [j, k, e] == [i, j, k, e];
    KeptFirst(None, i, [j, k, e]);
    if |a| + |c| < 16 {
      var n := RunOf(a + [z, z, z] + c);
      assert [j, k] + [e] == [j, k, e];
      Joined(i, j, k, [e]);
      OneMore(n, e);
      assert Bytes(n) == [|a| + |c|] + (a + [z, z, z] + c);
      FormTwo(n, e);
      assert Bytes(e) == MARK;
    } else {
      assert [j] + [k, e] == [j, k, e] && [k] + [e] == [k, e];
      KeptFirst(Some(i), j, [k, e]);
      KeptFirst(Some(j), k, [e]);
      OneMore(k, e);
      TwoRunsForm(a, c);
    }
  }

  lemma OneMore(i: Instr, e: Instr)
    requires e.kind == End
    ensures Rewritten(Some(i), [e]) == [i, e]
  {
    hide Rewritten;
    assert [e] + [] == [e];
    KeptFirst(Some(i), e, []);
    OnlyOne(e);
    assert [i] + [e] == [i, e];
  }

  lemma TwoRunsForm(a: seq<octet>, c: seq<octet>)
    requires 4 <= |a| < 19 && 4 <= |c| < 19
    ensures var z := a[|a| - 1];
            Form([RunOf(a), Instr(M2, [64, 0], [], [z, z, z]), RunOf(c), Instr(End, MARK, [], [])]) == TwoRuns(a, c)
  {
    hide Form;
    var z := a[|a| - 1];
    var i, j, k, e := RunOf(a), Instr(M2, [64, 0], [], [z, z, z]), RunOf(c), Instr(End, MARK, [], []);
    FormTwo(k, e);
    FormFirst(j, [k, e]);
    FormFirst(i, [j, k, e]);
    assert [j] + [k, e] == [j, k, e] && [i] + [j, k, e] == [i, j, k, e];
    assert Bytes(j) == [64, 0] && Bytes(e) == MARK;
  }
}
