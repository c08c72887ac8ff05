/** The five rewrites of the LZO1X optimizer on byte sequences: each replaces a short match by
    the literals it produces, at the same total size, by widening or creating a literal run. */
module Lzo1xRewrite {
  import opened Basics
  import opened LzCopy
  import opened Lzo1xFormat

  /** A match instruction starts at `ms`, its literal count sits in byte `litp`, and its `lit`
      literals end at `ip`. */
  ghost predicate MatchAt(b: seq<octet>, ms: nat, sm: State, litp: nat, lit: nat, ip: nat) {
    && ms <= litp && ip == litp + 2 + lit <= |b|
    && Run(b[..ms], INIT) == Some(sm)
    && sm.mode != Done && !(sm.mode == Start && b[ms] > 17) && !IsRun(b[ms..ip], sm.mode)
    && b[litp] % 4 == lit
    && (var h := ParseMatch(b[ms..ip], sm.mode);
        h.Some? && h.value.Header? && h.value.dist <= |sm.out| && litp == ms + h.value.size - 2)
  }

  /** The bytes produced by that match, without its literals. */
  ghost function MatchOut(b: seq<octet>, ms: nat, sm: State, litp: nat, lit: nat, ip: nat): seq<octet>
    requires MatchAt(b, ms, sm, litp, lit, ip)
  {
    var h := ParseMatch(b[ms..ip], sm.mode).value;
    Copy(sm.out, h.dist, h.len)
  }

  /** A literal run starts at `litp` and its `lit` literals end at `ip`. */
  ghost predicate RunAt(b: seq<octet>, litp: nat, sm: State, lit: nat, ip: nat) {
    && litp < ip <= |b| && lit > 3
    && Run(b[..litp], INIT) == Some(sm)
    && IsRun(b[litp..ip], sm.mode)
    && (b[litp] != 0 ==> lit == b[litp] + 3 && ip == litp + 1 + lit)
    && (b[litp] == 0 ==> lit >= 18)
  }

  function AfterLits(lit: nat): Mode { if lit == 0 then AfterMatch else AfterShort }

  /** A match instruction that takes all of `c`. */
  lemma MatchSteps(c: seq<octet>, s: State, h: Header)
    requires s.mode != Done && |c| > 0 && !(s.mode == Start && c[0] > 17) && !IsRun(c, s.mode)
    requires ParseMatch(c, s.mode) == Some(h) && h.Header? && h.dist <= |s.out|
    requires |c| == h.size + c[h.size - 2] % 4
    ensures Step(c, s) == Some((|c|, State(AfterLits(|c| - h.size), Copy(s.out, h.dist, h.len) + c[h.size..])))
  {
    hide ParseMatch, Copy;
    assert c[h.size..h.size + c[h.size - 2] % 4] == c[h.size..];
  }

  lemma MatchRuns(b: seq<octet>, ms: nat, sm: State, litp: nat, lit: nat, ip: nat)
    requires MatchAt(b, ms, sm, litp, lit, ip)
    ensures Run(b[..ip], INIT)
         == Some(State(AfterLits(lit), MatchOut(b, ms, sm, litp, lit, ip) + b[litp + 2..ip]))
  {
    hide Run, Step, ParseMatch, Copy;
    var c := b[ms..ip];
    var h := ParseMatch(c, sm.mode).value;
    assert c[h.size..] == b[litp + 2..ip];
    MatchSteps(c, sm, h);
    RunExtend(b, ms, ip, sm, State(AfterLits(lit), Copy(sm.out, h.dist, h.len) + c[h.size..]));
  }

  lemma RunRuns(b: seq<octet>, litp: nat, sm: State, lit: nat, ip: nat)
    requires RunAt(b, litp, sm, lit, ip) && b[litp] != 0
    ensures Run(b[..ip], INIT) == Some(State(AfterRun, sm.out + b[litp + 1..ip]))
  {
    hide Run, ParseMatch, Copy;
    var c := b[litp..ip];
    assert c[1..|c|] == b[litp + 1..ip];
    assert Step(c, sm) == Some((|c|, State(AfterRun, sm.out + c[1..|c|])));
    RunExtend(b, litp, ip, sm, State(AfterRun, sm.out + b[litp + 1..ip]));
  }

  lemma Split4(c: seq<octet>, i: nat, j: nat, k: nat, l: nat)
    requires i <= j <= k <= l <= |c|
    ensures c[i..l] == c[i..j] + c[j..k] + c[k..l]
  {
  }

  /** Changing the literal count of a match keeps the match. */
  lemma Relabel(b: seq<octet>, c: seq<octet>, ms: nat, sm: State, litp: nat, lit: nat, ip: nat, lit': nat)
    requires |c| == |b| && lit' < 4 && litp + 2 + lit' <= |c|
    requires c[..litp] == b[..litp] && c[litp] == b[litp] / 4 * 4 + lit' && c[litp + 1] == b[litp + 1]
    requires MatchAt(b, ms, sm, litp, lit, ip)
    ensures MatchAt(c, ms, sm, litp, lit', litp + 2 + lit')
    ensures MatchOut(c, ms, sm, litp, lit', litp + 2 + lit') == MatchOut(b, ms, sm, litp, lit, ip)
  {
    hide Run, Step, ParseMatch, Copy;
    var x, y := b[ms..ip], c[ms..litp + 2 + lit'];
    assert c[..ms] == c[..litp][..ms] == b[..litp][..ms] == b[..ms];
    var z := litp + 2 - ms;
    forall i | 0 <= i < z
      ensures y[i] / 4 == x[i] / 4 && (i != z - 2 ==> y[i] == x[i])
    {
      if i < z - 2 {
        assert c[ms + i] == c[..litp][ms + i] == b[..litp][ms + i];
      }
    }
    assert x[0] / 16 == x[0] / 4 / 4 == y[0] / 4 / 4 == y[0] / 16;
    assert x[0] == b[ms] && y[0] == c[ms];
    ParseMatchLocal(x, y, sm.mode);
  }

  /** Rewrites o_m1_a and o_m3_a: a match of `n` bytes that yields the `n` bytes `w`, behind a
      match with `lit` literals, becomes literals of that earlier match. */
  lemma WidenShortRun(b: seq<octet>, c: seq<octet>, ms: nat, sm: State, litp: nat, lit: nat, p: nat,
                      w: seq<octet>)
    requires MatchAt(b, ms, sm, litp, lit, p) && lit + |w| == 3 && p + |w| <= |b|
    requires |c| == |b| && c[..litp] == b[..litp] && c[litp] == b[litp] / 4 * 4 + 3
    requires c[litp + 1..p] == b[litp + 1..p] && c[p..p + |w|] == w
    ensures MatchAt(c, ms, sm, litp, 3, p + |w|)
    ensures Run(c[..p + |w|], INIT)
         == Some(State(AfterShort, MatchOut(b, ms, sm, litp, lit, p) + b[litp + 2..p] + w))
  {
    hide Run, Step, ParseMatch, Copy;
    assert c[litp + 1] == c[litp + 1..p][0] == b[litp + 1..p][0] == b[litp + 1];
    Relabel(b, c, ms, sm, litp, lit, p, 3);
    MatchRuns(c, ms, sm, litp, 3, p + |w|);
    assert c[litp + 2..p] == c[litp + 1..p][1..] == b[litp + 1..p][1..] == b[litp + 2..p];
    var o := MatchOut(b, ms, sm, litp, lit, p);
    assert o + c[litp + 2..p + |w|] == o + b[litp + 2..p] + w;
  }

  /** Rewrites o_m1_b and o_m3_b: such a match followed by a literal run of code `r` becomes,
      with the literals before it, one long literal run. */
  lemma MakeLongRun(b: seq<octet>, c: seq<octet>, ms: nat, sm: State, litp: nat, lit: nat, p: nat,
                    w: seq<octet>, r: nat, q: nat)
    requires MatchAt(b, ms, sm, litp, lit, p) && |w| >= 2 && r >= 1 && lit + |w| + r < 16
    requires q == p + |w| + 1 + r + 3 <= |b|
    requires |c| == |b| && c[..litp] == b[..litp] && c[litp] == b[litp] / 4 * 4
    requires c[litp + 1] == b[litp + 1] && c[litp + 2] == lit + |w| + r
    requires c[litp + 3..p + 1] == b[litp + 2..p] && c[p + 1..p + 1 + |w|] == w
    requires c[p + 1 + |w|..q] == b[p + 1 + |w|..q]
    ensures var sm' := State(AfterMatch, MatchOut(b, ms, sm, litp, lit, p));
            RunAt(c, litp + 2, sm', lit + |w| + r + 3, q)
    ensures Run(c[..q], INIT)
         == Some(State(AfterRun, MatchOut(b, ms, sm, litp, lit, p) + b[litp + 2..p] + w + b[p + 1 + |w|..q]))
  {
    hide Run, Step, ParseMatch, Copy;
    Relabel(b, c, ms, sm, litp, lit, p, 0);
    MatchRuns(c, ms, sm, litp, 0, litp + 2);
    var o := MatchOut(b, ms, sm, litp, lit, p);
    assert o + c[litp + 2..litp + 2] == o;
    RunRuns(c, litp + 2, State(AfterMatch, o), lit + |w| + r + 3, q);
    Split4(c, litp + 3, p + 1, p + 1 + |w|, q);
    var x, y := b[litp + 2..p], b[p + 1 + |w|..q];
    assert o + (x + w + y) == o + x + w + y;
  }

  /** Rewrite o_m2: a match of two bytes that yields three, between two literal runs, joins
      them. */
  lemma JoinRuns(b: seq<octet>, c: seq<octet>, litp: nat, sm: State, lit: nat, p: nat,
                 w: seq<octet>, r: nat, q: nat)
    requires RunAt(b, litp, sm, lit, p) && |w| == 3 && r >= 1 && lit + 3 + r < 16
    requires q == p + 3 + r + 3 <= |b|
    requires |c| == |b| && c[..litp] == b[..litp] && c[litp] == lit + 3 + r
    requires c[litp + 1..p] == b[litp + 1..p] && c[p..p + 3] == w && c[p + 3..q] == b[p + 3..q]
    ensures RunAt(c, litp, sm, lit + 3 + r + 3, q)
    ensures Run(c[..q], INIT) == Some(State(AfterRun, sm.out + b[litp + 1..p] + w + b[p + 3..q]))
  {
    hide Run, Step, ParseMatch, Copy;
    assert c[..litp] == b[..litp];
    RunRuns(c, litp, sm, lit + 3 + r + 3, q);
    Split4(c, litp + 1, p, p + 3, q);
    var o, x, y := sm.out, b[litp + 1..p], b[p + 3..q];
    assert o + (x + w + y) == o + x + w + y;
  }

  /** What a valid stream guarantees about its next instruction. */
  lemma Advance(b: seq<octet>, p: nat, s: State, data: seq<octet>)
    requires p <= |b| && s.mode != Done
    requires Run(b[p..], s) == Some(State(Done, data))
    ensures p < |b| && Step(b[p..], s).Some?
    ensures var (k, s') := Step(b[p..], s).value;
            p + k <= |b| && Run(b[p + k..], s') == Some(State(Done, data)) && s'.out <= data
            && (s'.mode != Done ==> p + k < |b|)
            && (s'.mode == Done ==> p + k == |b|)
  {
    var (k, s') := Step(b[p..], s).value;
    assert b[p..][k..] == b[p + k..];
  }

  /** An opcode from 16 up means the same in every mode. */
  lemma StepMode(b: seq<octet>, m: Mode, n: Mode, out: seq<octet>)
    requires |b| > 0 && b[0] >= 16
    requires m in {AfterMatch, AfterShort, AfterRun} && n in {AfterMatch, AfterShort, AfterRun}
    ensures Step(b, State(m, out)) == Step(b, State(n, out))
  {
  }
}
