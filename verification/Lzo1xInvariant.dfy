/** The invariant of the LZO1X optimizer: decoding the stream rewritten so far up to the next
    instruction gives the bytes already written out, and decoding the rest gives the remainder.
    Every branch of the optimizer keeps it. */
module Lzo1xInvariant {
  import opened Basics
  import opened LzCopy
  import opened Lzo1xFormat
  import opened Lzo1xRewrite

  // ---- Facts about a valid stream, instruction by instruction

  lemma MatchFacts(b: seq<octet>, p: nat, s: State, h: Header, data: seq<octet>)
    requires p < |b| && s.mode != Done && !(s.mode == Start && b[p] > 17) && !IsRun(b[p..], s.mode)
    requires Run(b[p..], s) == Some(State(Done, data))
    requires ParseMatch(b[p..], s.mode) == Some(h) && h.Header?
    ensures h.dist <= |s.out| && p + h.size <= |b|
    ensures var nl := b[p + h.size - 2] % 4;
            var q := p + h.size + nl;
            && q < |b|
            && (var s' := State(AfterLits(nl), Copy(s.out, h.dist, h.len) + b[p + h.size..q]);
                Step(b[p..], s) == Some((q - p, s')) && Run(b[q..], s') == Some(State(Done, data)) && s'.out <= data)
  {
    hide Run, ParseMatch, Copy;
    Advance(b, p, s, data);
    var c := b[p..];
    var nl := c[h.size - 2] % 4;
    assert c[h.size - 2] == b[p + h.size - 2];
    assert c[h.size..h.size + nl] == b[p + h.size..p + h.size + nl];
  }

  lemma MarkerFacts(b: seq<octet>, p: nat, s: State, h: Header, data: seq<octet>)
    requires p < |b| && s.mode != Done && !(s.mode == Start && b[p] > 17) && !IsRun(b[p..], s.mode)
    requires Run(b[p..], s) == Some(State(Done, data))
    requires ParseMatch(b[p..], s.mode) == Some(h) && h.Marker?
    ensures p + h.size == |b| && s.out == data && Step(b[p..], s) == Some((h.size, State(Done, data)))
  {
    hide ParseMatch, Copy, Run;
    Advance(b, p, s, data);
    RunOfDone(b[p + h.size..], s.out);
  }

  lemma RunOfDone(b: seq<octet>, out: seq<octet>)
    ensures Run(b, State(Done, out)).Some? ==> b == [] && Run(b, State(Done, out)) == Some(State(Done, out))
  {
  }

  /** A literal run, or the literals at the very start of a stream, of `n` bytes behind `k`
      header bytes. */
  lemma LiteralFacts(b: seq<octet>, p: nat, s: State, k: nat, n: nat, mode: Mode, data: seq<octet>)
    requires p < |b| && s.mode != Done && k + n > 0
    requires Run(b[p..], s) == Some(State(Done, data))
    requires Step(b[p..], s) == Literals(b[p..], k, n, s.out, mode) && mode != Done
    ensures p + k + n < |b|
    ensures var q := p + k + n;
            var s' := State(mode, s.out + b[p + k..q]);
            Step(b[p..], s) == Some((q - p, s')) && Run(b[q..], s') == Some(State(Done, data)) && s'.out <= data
  {
    hide Run, Step;
    Advance(b, p, s, data);
    assert b[p..][k..k + n] == b[p + k..p + k + n];
  }

  /** The instruction just read stays a match when seen in the rewritten stream `b`. */
  lemma PlainMatchAt(b: seq<octet>, orig: seq<octet>, p: nat, at: Mode, sm: State, h: Header, ip: nat)
    requires |b| == |orig| && p < |b| && b[p..] == orig[p..]
    requires at != Done && !(at == Start && b[p] > 17) && !IsRun(b[p..], at)
    requires ParseMatch(orig[p..], at) == Some(h) && h.Header? && h.dist <= |sm.out|
    requires ip == p + h.size + b[p + h.size - 2] % 4 <= |b|
    requires Run(b[..p], INIT) == Some(sm)
    requires sm.mode == at || (at == AfterMatch && sm.mode == AfterShort && b[p] >= 16)
    ensures MatchAt(b, p, sm, p + h.size - 2, b[p + h.size - 2] % 4, ip)
    ensures MatchOut(b, p, sm, p + h.size - 2, b[p + h.size - 2] % 4, ip) == Copy(sm.out, h.dist, h.len)
  {
    hide Run, Step, Copy, ParseMatch;
    var c := b[p..ip];
    assert forall i :: 0 <= i < |c| ==> c[i] == b[p..][i];
    ParseMatchLocal(orig[p..], c, at);
    ParseMode(c, at, sm.mode);
  }

  lemma ParseMode(b: seq<octet>, m: Mode, n: Mode)
    requires m == n || (|b| > 0 && b[0] >= 16)
    ensures ParseMatch(b, m) == ParseMatch(b, n)
  {
    hide ParseLong;
  }

  lemma Agree(b: seq<octet>, o: seq<octet>, p: nat, k: nat, q: nat)
    requires |b| == |o| && p <= k <= q <= |b| && b[p..] == o[p..]
    ensures b[q..] == o[q..] && b[k..q] == o[k..q]
  {
    assert b[q..] == b[p..][q - p..];
    assert o[q..] == o[p..][q - p..];
    forall i | k <= i < q ensures b[i] == o[i] {
      assert b[i] == b[p..][i - p] == o[p..][i - p] == o[i];
    }
  }

  lemma CopyNext(o: seq<octet>, d: nat, n: nat)
    requires 1 <= d <= |o| && n > 0
    ensures Copy(o, d, n) == Copy(o + [o[|o| - d]], d, n - 1)
  {
  }

  lemma CopyNone(o: seq<octet>, d: nat)
    requires 1 <= d <= |o|
    ensures Copy(o, d, 0) == o
  {
  }

  lemma CopyTwo(o: seq<octet>, d: nat)
    requires 1 <= d <= |o|
    ensures Copy(o, d, 2) == o + [o[|o| - d], if d == 1 then o[|o| - d] else o[|o| - d + 1]]
  {
    var x := o + [o[|o| - d]];
    assert Copy(o, d, 2) == Copy(x, d, 1) == Copy(x + [x[|x| - d]], d, 0);
  }

  lemma CopyThree(o: seq<octet>, d: nat)
    requires 1 <= d <= |o|
    ensures var a := o[|o| - d];
            var b := if d == 1 then a else o[|o| - d + 1];
            Copy(o, d, 3) == o + [a, b, if d == 1 then a else if d == 2 then a else o[|o| - d + 2]]
  {
    var x := o + [o[|o| - d]];
    assert Copy(o, d, 3) == Copy(x, d, 2);
    CopyTwo(x, d);
  }

  // ---- The invariant

  /** The state of the optimizer at an instruction: the rewritten stream, the bytes written
      out, from which of the nested loops the next opcode is read (as the mode of the original
      stream), the mode at the same place of the rewritten stream, `litp` and `lit`, and where
      the instruction that `litp` belongs to starts, with the state there. */
  datatype View = View(b: seq<octet>, out: seq<octet>, at: Mode, modeN: Mode, litp: int, lit: nat,
                       ms: nat, sm: State)

  ghost predicate Inv(v: View, orig: seq<octet>, data: seq<octet>, p: nat) {
    && |v.b| == |orig| && p < |orig| && v.b[p..] == orig[p..]
    && v.out <= data && v.at != Done
    && Run(orig[p..], State(v.at, v.out)) == Some(State(Done, data))
    && Run(v.b[..p], INIT) == Some(State(v.modeN, v.out))
    && (v.modeN == v.at || (v.at == AfterMatch && v.modeN == AfterShort && v.b[p] >= 16))
    && (v.at == Start ==> p == 0 && v.litp < 0)
    && (v.litp >= 0 && v.lit <= 3 ==> v.at != AfterRun && MatchAt(v.b, v.ms, v.sm, v.litp, v.lit, p))
    && (v.litp >= 0 && v.lit > 3 ==> v.at == AfterRun && RunAt(v.b, v.litp, v.sm, v.lit, p))
  }

  /** The instruction at `p` is the match `h`. */
  ghost predicate MatchNext(v: View, p: nat, h: Header) {
    && p < |v.b| && !(v.at == Start && v.b[p] > 17) && !IsRun(v.b[p..], v.at)
    && ParseMatch(v.b[p..], v.at) == Some(h)
  }

  lemma LastBounds(v: View, orig: seq<octet>, data: seq<octet>, p: nat)
    requires Inv(v, orig, data, p) && v.litp >= 0
    ensures v.lit <= 3 ==> p == v.litp + 2 + v.lit <= |v.b|
    ensures 3 < v.lit < 18 ==> p == v.litp + 1 + v.lit <= |v.b|
    ensures v.lit > 3 <==> v.at == AfterRun
  {
    hide Run, ParseMatch;
  }

  /** A valid stream has an instruction at `p`: here, not a literal run. */
  lemma MatchThere(v: View, orig: seq<octet>, data: seq<octet>, p: nat)
    requires Inv(v, orig, data, p) && !(v.at == Start && v.b[p] > 17) && !IsRun(v.b[p..], v.at)
    ensures p + 1 < |v.b| && ParseMatch(v.b[p..], v.at).Some?
    ensures MatchNext(v, p, ParseMatch(v.b[p..], v.at).value)
  {
    hide Run, ParseMatch, Copy, MatchAt, RunAt;
    assert orig[p] == orig[p..][0] == v.b[p..][0] == v.b[p];
    Advance(orig, p, State(v.at, v.out), data);
  }

  /** The two-byte matches: opcode, and one byte of the distance. */
  lemma ShortHeader(b: seq<octet>, p: nat, at: Mode, t: int, u: int)
    requires p + 1 < |b| && t == b[p] && u == b[p + 1] && (t < 16 || t >= 64)
    requires ParseMatch(b[p..], at).Some?
    ensures t >= 64 ==> ParseMatch(b[p..], at) == Some(Header(2, 1 + t / 4 % 8 + u * 8, t / 32 + 1))
    ensures t < 16 && at == AfterRun ==> ParseMatch(b[p..], at) == Some(Header(2, 1 + 0x800 + t / 4 + u * 4, 3))
    ensures t < 16 && at != AfterRun ==> ParseMatch(b[p..], at) == Some(Header(2, 1 + t / 4 + u * 4, 2))
  {
    assert b[p..][0] == t && b[p..][1] == u;
  }

  /** The longer matches have a length field that a valid stream holds completely. */
  lemma LongLength(b: seq<octet>, p: nat, at: Mode, t: nat)
    requires p < |b| && t == b[p] && 16 <= t < 64 && ParseMatch(b[p..], at).Some?
    ensures var l := if t >= 32 then Length(b[p..], t % 32, 31) else Length(b[p..], t % 8, 7);
            l.Some? && p + l.value.1 + 2 <= |b|
  {
    assert b[p..][0] == t;
  }

  lemma LongHeader(b: seq<octet>, p: nat, at: Mode, t: nat, l: (nat, nat), lo: int, hi: int)
    requires p < |b| && t == b[p] && 16 <= t < 64 && ParseMatch(b[p..], at).Some?
    requires (if t >= 32 then Length(b[p..], t % 32, 31) else Length(b[p..], t % 8, 7)) == Some(l)
    requires p + l.1 + 2 <= |b| && lo == b[p + l.1] && hi == b[p + l.1 + 1]
    ensures var d := (if t >= 32 then 1 else t / 8 % 2 * 0x4000) + lo / 4 + hi * 64;
            ParseMatch(b[p..], at) == Some(if t >= 32 then Header(l.1 + 2, d, l.0 + 2)
                                           else if d == 0 then Marker(l.1 + 2)
                                           else Header(l.1 + 2, d + 0x4000, l.0 + 2))
  {
    hide Length;
    var c := b[p..];
    assert c[0] == t && c[l.1] == lo && c[l.1 + 1] == hi;
  }

  lemma RunThere(v: View, orig: seq<octet>, data: seq<octet>, p: nat)
    requires Inv(v, orig, data, p) && IsRun(v.b[p..], v.at)
    ensures Length(v.b[p..], v.b[p], 15).Some?
  {
    hide Run, ParseMatch, Copy, MatchAt, RunAt, Length;
    assert orig[p] == orig[p..][0] == v.b[p..][0] == v.b[p];
    Advance(orig, p, State(v.at, v.out), data);
  }

  /** The match is kept. */
  lemma PlainKeeps(v: View, orig: seq<octet>, data: seq<octet>, p: nat, h: Header)
    requires Inv(v, orig, data, p) && MatchNext(v, p, h) && h.Header?
    ensures h.dist <= |v.out| && p + h.size <= |v.b|
    ensures var nl := v.b[p + h.size - 2] % 4;
            var q := p + h.size + nl;
            && q < |v.b| && |v.out| + h.len + nl <= |data|
            && Inv(View(v.b, Copy(v.out, h.dist, h.len) + v.b[p + h.size..q], AfterLits(nl), AfterLits(nl),
                        p + h.size - 2, nl, p, State(v.modeN, v.out)), orig, data, q)
  {
    hide Run, Step, ParseMatch, Copy, RunAt, MatchAt;
    var b, s := v.b, State(v.at, v.out);
    assert orig[p] == orig[p..][0] == b[p..][0] == b[p];
    MatchFacts(orig, p, s, h, data);
    var k := p + h.size;
    Agree(b, orig, p, k - 2, k);
    assert b[k - 2] == b[k - 2..k][0] == orig[k - 2..k][0] == orig[k - 2];
    var nl := b[k - 2] % 4;
    var q := k + nl;
    Agree(b, orig, p, k, q);
    PlainMatchAt(b, orig, p, v.at, State(v.modeN, v.out), h, q);
    MatchRuns(b, p, State(v.modeN, v.out), k - 2, nl, q);
  }

  lemma PlainFacts(v: View, orig: seq<octet>, data: seq<octet>, p: nat, h: Header)
    requires Inv(v, orig, data, p) && MatchNext(v, p, h) && h.Header?
    ensures 1 <= h.dist <= |v.out| && p + h.size < |v.b|
  {
    hide Inv, Copy;
    PlainKeeps(v, orig, data, p, h);
  }

  /** The match yields `n` bytes `w` from `n` bytes of code and its literal count is zero. */
  ghost predicate Replaceable(v: View, p: nat, off: nat, n: nat, w: seq<octet>) {
    && MatchNext(v, p, Header(n, off, n)) && (n == 2 || n == 3)
    && v.litp >= 0 && v.lit <= 3 && 1 <= off <= |v.out| && v.out + w == Copy(v.out, off, n)
    && p + n < |v.b| && v.b[p + n - 2] % 4 == 0
  }

  lemma ReplaceableFacts(v: View, orig: seq<octet>, data: seq<octet>, p: nat, off: nat, n: nat, w: seq<octet>)
    requires Inv(v, orig, data, p) && Replaceable(v, p, off, n, w)
    ensures |w| == n && v.out + w <= data
    ensures v.ms <= v.litp && p == v.litp + 2 + v.lit
    ensures v.out == MatchOut(v.b, v.ms, v.sm, v.litp, v.lit, p) + v.b[v.litp + 2..p]
    ensures Run(orig[p + n..], State(AfterMatch, v.out + w)) == Some(State(Done, data))
    ensures v.b[p + n..] == orig[p + n..]
  {
    hide Run, Step, ParseMatch, Copy, RunAt;
    assert orig[p] == orig[p..][0] == v.b[p..][0] == v.b[p];
    MatchFacts(orig, p, State(v.at, v.out), Header(n, off, n), data);
    Agree(v.b, orig, p, p + n - 2, p + n);
    assert v.b[p + n - 2] == v.b[p + n - 2..p + n][0] == orig[p + n - 2];
    assert v.out + w + orig[p + n..p + n] == v.out + w;
    MatchRuns(v.b, v.ms, v.sm, v.litp, v.lit, p);
  }

  ghost predicate FollowedByMatch(b: seq<octet>, p: nat) { p < |b| && b[p] >= 16 }

  /** What o_m1_a and o_m3_a change: the short run becomes three literals, the last of which replace the match. */
  ghost predicate WidenEdit(b: seq<octet>, c: seq<octet>, litp: int, p: nat, n: nat, w: seq<octet>) {
    |c| == |b| && forall i :: 0 <= i < |c| ==>
      c[i] == if i == litp then b[i] / 4 * 4 + 3 else if p <= i < p + n && i - p < |w| then w[i - p] else b[i]
  }

  /** o_m1_a and o_m3_a keep the invariant. */
  lemma WidenKeeps(v: View, orig: seq<octet>, data: seq<octet>, p: nat, off: nat, n: nat, w: seq<octet>, c: seq<octet>)
    requires Inv(v, orig, data, p) && Replaceable(v, p, off, n, w) && v.lit + n == 3
    requires FollowedByMatch(v.b, p + n) && WidenEdit(v.b, c, v.litp, p, n, w)
    ensures |w| == n && |v.out| + n <= |data|
    ensures Inv(View(c, v.out + w, AfterMatch, AfterShort, v.litp, 3, v.ms, v.sm), orig, data, p + n)
  {
    hide Run, Step, ParseMatch, Copy, RunAt, MatchAt;
    ReplaceableFacts(v, orig, data, p, off, n, w);
    var b, litp := v.b, v.litp;
    assert c[..litp] == b[..litp];
    assert c[litp + 1..p] == b[litp + 1..p];
    assert c[p..p + |w|] == w;
    assert c[p + n..] == b[p + n..];
    WidenShortRun(b, c, v.ms, v.sm, litp, v.lit, p, w);
  }

  /** A literal run of `n` literals behind `k` header bytes at `p`, in both streams. */
  lemma RunKeeps(v: View, orig: seq<octet>, data: seq<octet>, p: nat, l: (nat, nat))
    requires Inv(v, orig, data, p) && IsRun(v.b[p..], v.at) && Length(v.b[p..], v.b[p], 15) == Some(l)
    ensures var q := p + l.1 + l.0 + 3;
            && q < |v.b| && |v.out| + l.0 + 3 <= |data|
            && Inv(View(v.b, v.out + v.b[p + l.1..q], AfterRun, AfterRun, p, l.0 + 3, p, State(v.modeN, v.out)),
                   orig, data, q)
  {
    hide Run, ParseMatch, Copy, MatchAt, Extension;
    var b, s := v.b, State(v.at, v.out);
    assert orig[p..][0] == b[p..][0] == b[p] == orig[p];
    assert v.modeN == v.at;
    var q := p + l.1 + l.0 + 3;
    LiteralFacts(orig, p, s, l.1, l.0 + 3, AfterRun, data);
    Agree(b, orig, p, p + l.1, q);
    StepPrefix(b, p, q, s, State(AfterRun, v.out + b[p + l.1..q]));
    assert b[p..q][0] == b[p];
  }

  lemma StepPrefix(b: seq<octet>, p: nat, q: nat, s: State, s': State)
    requires p < q <= |b| && Run(b[..p], INIT) == Some(s)
    requires Step(b[p..], s) == Some((q - p, s'))
    ensures Run(b[..q], INIT) == Some(s')
  {
    hide Run, Step;
    assert forall i :: 0 <= i < q - p ==> b[p..q][i] == b[p..][i];
    StepLocal(b[p..], b[p..q], s);
    RunExtend(b, p, q, s, s');
  }

  /** The literals that may open a stream. */
  lemma OpeningKeeps(v: View, orig: seq<octet>, data: seq<octet>)
    requires Inv(v, orig, data, 0) && v.at == Start && v.modeN == Start && v.b[0] > 17
    ensures var n := v.b[0] - 17;
            && 1 + n < |v.b| && |v.out| + n <= |data|
            && (var m := if n < 4 then AfterShort else AfterRun;
                Inv(View(v.b, v.out + v.b[1..1 + n], m, m, v.litp, v.lit, v.ms, v.sm), orig, data, 1 + n))
  {
    hide Run, ParseMatch, Copy, MatchAt, Extension;
    var b, s, n := v.b, State(v.at, v.out), v.b[0] - 17;
    assert orig[0..][0] == b[0..][0] == b[0] == orig[0];
    var m := if n < 4 then AfterShort else AfterRun;
    LiteralFacts(orig, 0, s, 1, n, m, data);
    Agree(b, orig, 0, 1, 1 + n);
    StepPrefix(b, 0, 1 + n, s, State(m, v.out + b[1..1 + n]));
  }

  /** The run of code `r` that follows a match replaced at `p`. */
  lemma FollowingRun(b: seq<octet>, orig: seq<octet>, data: seq<octet>, p: nat, out: seq<octet>, r: nat)
    requires |b| == |orig| && p < |b| && b[p..] == orig[p..] && b[p] == r && 1 <= r < 16
    requires Run(orig[p..], State(AfterMatch, out)) == Some(State(Done, data))
    ensures var q := p + 1 + r + 3;
            && q < |b| && b[p + 1..q] == orig[p + 1..q] && b[q..] == orig[q..] && out + b[p + 1..q] <= data
            && Run(orig[q..], State(AfterRun, out + b[p + 1..q])) == Some(State(Done, data))
  {
    hide Run, ParseMatch, Copy, MatchAt, Extension;
    assert orig[p..][0] == b[p..][0] == b[p] == orig[p];
    LiteralFacts(orig, p, State(AfterMatch, out), 1, r + 3, AfterRun, data);
    Agree(b, orig, p, p + 1, p + 1 + r + 3);
  }

  /** The bytes after rewrite o_m1_b or o_m3_b of the match of `n` bytes at `p`. */
  ghost predicate LongRunEdit(b: seq<octet>, c: seq<octet>, litp: nat, lit: nat, p: nat, n: nat, w: seq<octet>, r: nat)
    requires p == litp + 2 + lit && p + n < |b| && |w| == n
  {
    && |c| == |b| && c[litp] == b[litp] / 4 * 4 && c[litp + 2] == lit + n + r
    && (forall i :: 0 <= i < |c| && i != litp && !(litp + 2 <= i <= p + n) ==> c[i] == b[i])
    && (forall i :: litp + 2 <= i < p ==> c[i + 1] == b[i])
    && (forall i :: 0 <= i < n ==> c[p + 1 + i] == w[i])
  }

  /** The three edits: the count is cleared and the bytes of the match are put behind its place, the short run moves up,
      and the new code goes in front of it. */
  lemma LongRunMoved(b: seq<octet>, c: seq<octet>, d: seq<octet>, litp: nat, lit: nat, p: nat, n: nat, w: seq<octet>, r: nat)
    requires p == litp + 2 + lit && p + n < |b| == |c| == |d| && |w| == n && lit + n + r < 16
    requires c[litp] == b[litp] / 4 * 4 && forall i :: 0 <= i < n ==> c[p + 1 + i] == w[i]
    requires forall i :: 0 <= i < |b| && i != litp && !(p + 1 <= i < p + 1 + n) ==> c[i] == b[i]
    requires forall i :: litp + 2 <= i < p ==> d[i + 1] == c[i]
    requires forall i :: 0 <= i < |b| && !(litp + 2 < i <= p) ==> d[i] == c[i]
    ensures LongRunEdit(b, d[litp + 2 := lit + n + r], litp, lit, p, n, w, r)
  {
  }

  lemma LongRunSlices(b: seq<octet>, c: seq<octet>, litp: nat, lit: nat, p: nat, n: nat, w: seq<octet>, r: nat, q: nat)
    requires p == litp + 2 + lit && p + n < q <= |b| && |w| == n && LongRunEdit(b, c, litp, lit, p, n, w, r)
    ensures |c| == |b| && c[litp] == b[litp] / 4 * 4 && c[litp + 1] == b[litp + 1] && c[litp + 2] == lit + n + r
    ensures c[..litp] == b[..litp] && c[litp + 3..p + 1] == b[litp + 2..p] && c[p + 1..p + 1 + n] == w
    ensures c[p + 1 + n..q] == b[p + 1 + n..q] && c[q..] == b[q..]
  {
    forall i | litp + 3 <= i < p + 1 ensures c[i] == b[i - 1] {
      assert c[(i - 1) + 1] == b[i - 1];
    }
    forall i | p + 1 <= i < p + 1 + n ensures c[i] == w[i - p - 1] {
      assert c[p + 1 + (i - p - 1)] == w[i - p - 1];
    }
  }

  /** o_m1_b and o_m3_b keep the invariant. */
  lemma LongRunKeeps(v: View, orig: seq<octet>, data: seq<octet>, p: nat, off: nat, n: nat, w: seq<octet>, r: nat,
                     c: seq<octet>) returns (s: State)
    requires Inv(v, orig, data, p) && Replaceable(v, p, off, n, w) && |w| == n
    requires p == v.litp + 2 + v.lit && LongRunEdit(v.b, c, v.litp, v.lit, p, n, w, r)
    requires 1 <= r < 16 && v.b[p + n] == r && v.lit + n + r < 16
    ensures var q := p + n + 1 + r + 3;
            && q < |v.b| && |v.out| + n + r + 3 <= |data|
            && c[p + n + 1..q] == v.b[p + n + 1..q]
            && Inv(View(c, v.out + w + c[p + n + 1..q], AfterRun, AfterRun, v.litp + 2,
                        v.lit + n + r + 3, v.litp + 2, s), orig, data, q)
  {
    hide Run, Step, ParseMatch, Copy, RunAt, MatchAt, LongRunEdit, IsRun;
    ReplaceableFacts(v, orig, data, p, off, n, w);
    FollowingRun(v.b, orig, data, p + n, v.out + w, r);
    var b, litp, q := v.b, v.litp, p + n + 1 + r + 3;
    LongRunSlices(b, c, litp, v.lit, p, n, w, r, q);
    MakeLongRun(b, c, v.ms, v.sm, litp, v.lit, p, w, r, q);
    s := State(AfterMatch, MatchOut(b, v.ms, v.sm, litp, v.lit, p));
  }

  /** What o_m2 changes: the code of the run, and the bytes of the match and of the code behind it. */
  ghost predicate JoinEdit(b: seq<octet>, c: seq<octet>, litp: int, code: int, p: nat, w: seq<octet>) {
    |c| == |b| && forall i :: 0 <= i < |c| ==>
      c[i] == if i == litp then code else if p <= i < p + 3 && i - p < |w| then w[i - p] else b[i]
  }

  /** o_m2 keeps the invariant. */
  lemma JoinKeeps(v: View, orig: seq<octet>, data: seq<octet>, p: nat, off: nat, w: seq<octet>, r: nat, c: seq<octet>)
    requires Inv(v, orig, data, p) && MatchNext(v, p, Header(2, off, 3)) && v.litp >= 0 && v.lit > 3
    requires 1 <= off <= |v.out| && v.out + w == Copy(v.out, off, 3)
    requires p + 2 < |v.b| && v.b[p] % 4 == 0 && v.b[p + 2] == r && 1 <= r < 16 && v.lit + 3 + r < 16
    requires JoinEdit(v.b, c, v.litp, v.lit + 3 + r, p, w)
    ensures var q := p + 3 + r + 3;
            && q < |v.b| && |v.out| + 3 + r + 3 <= |data|
            && Inv(View(c, v.out + w + v.b[p + 3..q], AfterRun, AfterRun, v.litp, v.lit + 3 + r + 3, v.ms, v.sm),
                   orig, data, q)
  {
    hide Run, Step, ParseMatch, Copy, MatchAt;
    var b, litp, q := v.b, v.litp, p + 3 + r + 3;
    assert orig[p] == orig[p..][0] == b[p..][0] == b[p];
    MatchFacts(orig, p, State(v.at, v.out), Header(2, off, 3), data);
    assert v.out + w + orig[p + 2..p + 2] == v.out + w;
    Agree(b, orig, p, p, p + 2);
    FollowingRun(b, orig, data, p + 2, v.out + w, r);
    RunRuns(b, litp, v.sm, v.lit, p);
    assert c[..litp] == b[..litp];
    assert c[litp + 1..p] == b[litp + 1..p];
    assert c[p..p + 3] == w;
    assert c[p + 3..q] == b[p + 3..q];
    assert c[q..] == b[q..];
    JoinRuns(b, c, litp, v.sm, v.lit, p, w, r, q);
  }

  /** The end marker. */
  lemma MarkerEnds(v: View, orig: seq<octet>, data: seq<octet>, p: nat, h: Header)
    requires Inv(v, orig, data, p) && MatchNext(v, p, h) && h.Marker?
    ensures p + h.size == |v.b| && v.out == data && Decode(v.b) == Some(data)
  {
    hide Run, Step, ParseMatch, Copy, MatchAt, RunAt;
    assert orig[p] == orig[p..][0] == v.b[p..][0] == v.b[p];
    MarkerFacts(orig, p, State(v.at, v.out), h, data);
    if v.modeN != v.at {
      StepMode(v.b[p..], v.at, v.modeN, v.out);
    }
    StepPrefix(v.b, p, |v.b|, State(v.modeN, v.out), State(Done, data));
    assert v.b[..|v.b|] == v.b;
  }
}
