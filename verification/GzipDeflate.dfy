/** deflate: lazy matching. What the tokens stand for is the input, and what is written decodes
    to it. */
module GzipDeflate {
  import opened Basics
  import opened LzCopy
  import opened Rfc1951
  import W = GzipWindow
  import opened GzipMatcher
  import L = GzipLazy
  import opened GzipBits
  import opened GzipTally
  import opened BlockCode
  import opened GzipChoice
  import opened GzipBlock

  // ---- Tokens and the input

  /** The `n` bytes at `at` repeat those `dist` bytes before; the distance is in the window. */
  ghost predicate Repeats(input: seq<byte>, at: nat, dist: int, n: nat) {
    && 1 <= dist <= W.MAX_DIST && dist <= at && at + n <= |input|
    && forall i :: at <= i < at + n ==> input[i] == input[i - dist]
  }

  /** Matches have the lengths and the distances that the format and the window allow. */
  ghost predicate Near(t: Token) {
    t.Match? ==> W.MIN_MATCH <= t.len <= W.MAX_MATCH && 1 <= t.dist <= W.MAX_DIST
  }

  /** The tokens lead from the input up to `b` to the input up to `done`. */
  ghost predicate Progress(input: seq<byte>, ts: seq<Token>, b: int, done: int) {
    && 0 <= b <= done <= |input| && (forall i :: 0 <= i < |ts| ==> Near(ts[i]))
    && Expand(input[..b], ts) == Some(input[..done])
  }

  lemma {:induction false} ExpandMore(out: seq<byte>, ts: seq<Token>, t: Token)
    requires Expand(out, ts).Some?
    ensures Expand(out, ts + [t]) == Apply(Expand(out, ts).value, t)
    decreases |ts|
  {
    hide Apply;
    if ts == [] {
      assert [t][1..] == [] && [] + [t] == [t];
    } else {
      assert (ts + [t])[1..] == ts[1..] + [t];
      ExpandMore(Apply(out, ts[0]).value, ts[1..], t);
    }
  }

  lemma LiteralStep(input: seq<byte>, ts: seq<Token>, b: int, done: int, t: Token)
    requires Progress(input, ts, b, done) && done < |input| && t == Literal(input[done])
    ensures Progress(input, ts + [t], b, done + 1)
  {
    hide Expand;
    ExpandMore(input[..b], ts, t);
    assert input[..done + 1] == input[..done] + [input[done]];
  }

  lemma MatchStep(input: seq<byte>, ts: seq<Token>, b: int, done: int, t: Token)
    requires Progress(input, ts, b, done) && Near(t) && t.Match? && done >= 0 && Repeats(input, done, t.dist, t.len)
    ensures Progress(input, ts + [t], b, done + t.len)
  {
    hide Expand;
    ExpandMore(input[..b], ts, t);
    CopyOfRepeat(input, done, t.dist, t.len);
  }

  lemma NothingYet(input: seq<byte>, b: int)
    requires 0 <= b <= |input|
    ensures Progress(input, [], b, b)
  {
  }

  /** A match in the window is a repetition in the input. */
  lemma WindowRepeats(w: seq<byte>, end: nat, input: seq<byte>, base: nat, pos: nat, p: nat, s: nat, best: nat, n: nat)
    requires Holds(w, end, input, base, pos) && p < s && s - p <= W.MAX_DIST && n <= best && s + n <= end
    requires s + best <= |w| && Agrees(w, p, s, best)
    ensures Repeats(input, base + s, s - p, n)
  {
    forall i | base + s <= i < base + s + n ensures input[i] == input[i - (s - p)] {
      var k := i - base - s;
      assert w[s + k] == w[s..s + best][k] == w[p..p + best][k] == w[p + k];
      InWindow(w, end, input, base, pos, s + k);
      InWindow(w, end, input, base, pos, p + k);
    }
  }

  lemma InWindow(w: seq<byte>, end: nat, input: seq<byte>, base: nat, pos: nat, k: nat)
    requires Holds(w, end, input, base, pos) && k < end
    ensures w[k] == input[base + k]
  {
    assert w[k] == w[..end][k] == input[base..pos][k];
  }

  /** The block in the window. */
  lemma BlockInWindow(w: seq<byte>, end: nat, input: seq<byte>, base: nat, pos: nat, from: nat, to: nat)
    requires Holds(w, end, input, base, pos) && from <= to <= end
    ensures w[from..to] == input[base + from..base + to]
  {
    forall k | from <= k < to ensures w[k] == input[base + k] {
      InWindow(w, end, input, base, pos, k);
    }
  }

  // ---- The state of the compressor

  ghost predicate Separate(m: Matcher, c: Coder) {
    m !in c.Repr() && m.window !in c.Repr() && m.prev !in c.Repr() && m.head !in c.Repr()
  }

  /** The input up to the block start has been sent, that up to `done` has been tallied. */
  ghost predicate State(m: Matcher, c: Coder, done: int)
    reads m, m.window, c, c.Repr()
  {
    && Separate(m, c) && m.Filled() && c.Valid()
    && Progress(m.input, c.tokens, m.base + m.blockStart, done) && Blocks(c.bw.Sent(), m.input[..m.base + m.blockStart])
    && CutAll(c.log)
  }

  // ---- Where blocks end

  /** How many bytes the tokens stand for. */
  ghost function Span(ts: seq<Token>): nat {
    if ts == [] then 0 else Span(ts[..|ts| - 1]) + if ts[|ts| - 1].Match? then ts[|ts| - 1].len else 1
  }

  /** ct_tally asks for a flush behind these tokens. */
  ghost predicate Full(ts: seq<Token>) { ts != [] && GoodTokens(ts) && MustFlush(ts, Span(ts[..|ts| - 1]) + 1) }

  /** It has not done so up to now. */
  ghost predicate Unflushed(ts: seq<Token>) { forall k :: 0 < k <= |ts| ==> !Full(ts[..k]) }

  /** A block ends exactly where it has to, or at the end of the file. */
  ghost predicate Cut(p: Piece) {
    (p.tokens != [] ==> Unflushed(p.tokens[..|p.tokens| - 1])) && (p.eof || Full(p.tokens))
  }

  ghost predicate CutAll(log: seq<Piece>) { forall i :: 0 <= i < |log| ==> Cut(log[i]) }

  ghost predicate Ready(c: Coder)
    reads c
  {
    c.lastLit < LIT_BUFSIZE - 1 && Unflushed(c.tokens)
  }

  /** Behind a token: the block ends iff it has to. */
  ghost predicate Flushing(c: Coder, flush: bool)
    reads c
  {
    && c.tokens != [] && Unflushed(c.tokens[..|c.tokens| - 1]) && (flush <==> Full(c.tokens)) && (!flush ==> Ready(c))
  }

  lemma UnflushedMore(ts: seq<Token>, t: Token)
    requires Unflushed(ts)
    ensures (ts + [t])[..|ts|] == ts && (Unflushed(ts + [t]) <==> !Full(ts + [t]))
  {
    hide Full;
    var all := ts + [t];
    assert all[..|all|] == all;
    if !Full(all) {
      forall k | 0 < k <= |all| ensures !Full(all[..k]) {
        if k <= |ts| {
          assert all[..k] == ts[..k];
        }
      }
    }
  }

  lemma NothingFull()
    ensures Unflushed([])
  {
  }

  lemma CutMore(log: seq<Piece>, p: Piece)
    requires CutAll(log) && Cut(p)
    ensures CutAll(log + [p])
  {
    hide Cut;
  }

  /** The end of the file may follow. */
  ghost predicate Endable(ts: seq<Token>) { ts != [] ==> Unflushed(ts[..|ts| - 1]) }

  lemma UnflushedEndable(ts: seq<Token>)
    requires Unflushed(ts)
    ensures Endable(ts)
  {
    hide Full;
    if ts != [] {
      var init := ts[..|ts| - 1];
      forall k | 0 < k <= |init| ensures !Full(init[..k]) {
        assert init[..k] == ts[..k];
      }
    }
  }

  /** What a tally means for the end of the block. */
  lemma TallyFlushes(ts: seq<Token>, t: Token, out: seq<byte>, done: seq<byte>, inLength: nat, flush: bool)
    requires Unflushed(ts) && Expand(out, ts) == Some(done) && inLength == |done| - |out| + 1
    requires GoodTokens(ts + [t]) && (flush <==> MustFlush(ts + [t], inLength))
    ensures (ts + [t])[..|ts + [t]| - 1] == ts && (flush <==> Full(ts + [t])) && (!flush ==> Unflushed(ts + [t]))
  {
    hide MustFlush, Unflushed;
    SpanIs(out, ts);
    UnflushedMore(ts, t);
  }

  lemma {:induction false} SpanIs(out: seq<byte>, ts: seq<Token>)
    requires Expand(out, ts).Some?
    ensures |Expand(out, ts).value| == |out| + Span(ts)
    decreases |ts|
  {
    if ts == [] {
    } else {
      var n := |ts| - 1;
      assert ts == ts[..n] + [ts[n]];
      ExpandFront(out, ts[..n], ts[n]);
      SpanIs(out, ts[..n]);
    }
  }

  lemma {:induction false} ExpandFront(out: seq<byte>, ts: seq<Token>, t: Token)
    requires Expand(out, ts + [t]).Some?
    ensures Expand(out, ts).Some? && Expand(out, ts + [t]) == Apply(Expand(out, ts).value, t)
    decreases |ts|
  {
    hide Apply;
    if ts == [] {
      assert [t][1..] == [] && [] + [t] == [t];
    } else {
      assert (ts + [t])[1..] == ts[1..] + [t];
      ExpandFront(Apply(out, ts[0]).value, ts[1..], t);
    }
  }

  /** All tokens so far, sent or not. */
  ghost function Emitted(c: Coder): seq<Token>
    reads c
  {
    AllTokens(c.log) + c.tokens
  }

  /** The block in the window, unless the window has moved past its start. */
  method BlockBuffer(m: Matcher) returns (buf: Option<seq<byte>>)
    requires m.Filled() && 0 <= m.base + m.blockStart && m.blockStart <= m.strstart && m.base + m.strstart <= |m.input|
    ensures buf.Some? <==> m.blockStart >= 0
    ensures buf.Some? ==> buf.value == m.input[m.base + m.blockStart..m.base + m.strstart]
  {
    buf := None;
    if m.blockStart >= 0 {
      BlockInWindow(m.window[..], m.strstart + m.lookahead, m.input, m.base, m.pos, m.blockStart, m.strstart);
      buf := Some(m.window[m.blockStart..m.strstart]);
    }
  }

  /** FLUSH_BLOCK(0), when everything up to strstart has been tallied. */
  method Flush(m: Matcher, c: Coder)
    requires State(m, c, m.base + m.strstart) && Flushing(c, true)
    modifies c.Repr(), m`blockStart
    ensures State(m, c, m.base + m.strstart) && Ready(c)
    ensures Emitted(c) == old(Emitted(c)) && |c.log| > 0
    ensures var p := c.log[|c.log| - 1];
            p.data == m.input[old(m.base + m.blockStart)..m.base + m.strstart] && (p.inWindow <==> old(m.blockStart) >= 0) && !p.eof
  {
    hide Holds, Progress, Blocks, Expand, Coder.Valid, BlockReads, StaticBlock, StaticGood, Inflate, InflateFrom, ByteBits;
    hide BitWriter.Sent, BitWriter.Valid, Chosen, Logged, AllTokens, Full, CutAll, Unflushed;
    c.Basics();
    ghost var sent, b, e := c.bw.Sent(), m.base + m.blockStart, m.base + m.strstart;
    ProgressSays(m.input, c.tokens, b, e);
    var buf := BlockBuffer(m);
    ghost var out, data := m.input[..b], m.input[b..e];
    assert out + data == m.input[..e];
    var len;
    ghost var p, pad;
    ghost var log := c.log;
    len, p, pad := c.FlushBlock(buf, m.strstart - m.blockStart, false, out, data);
    TokensMore(log, p);
    CutMore(log, p);
    NothingFull();
    AppendBlock(sent, out, p.bits, m.input[..e]);
    m.blockStart := m.strstart;
    NothingYet(m.input, e);
    c.Basics();
  }

  lemma TokensMore(log: seq<Piece>, p: Piece)
    ensures AllTokens(log + [p]) == AllTokens(log) + p.tokens && AllTokens(log) + p.tokens + [] == AllTokens(log) + p.tokens
  {
    assert (log + [p])[..|log|] == log;
  }

  lemma ProgressSays(input: seq<byte>, ts: seq<Token>, b: int, done: int)
    requires Progress(input, ts, b, done)
    ensures 0 <= b <= done <= |input| && Expand(input[..b], ts) == Some(input[..done])
  {
  }

  /** ct_tally for a token that leads from `done` to `done'`. */
  method Tally(m: Matcher, c: Coder, dist: nat, lc: nat, ghost t: Token, ghost done: int, ghost done': int) returns (flush: bool)
    requires State(m, c, done) && Ready(c) && Near(t) && lc == Lc(t) && dist == (if t.Match? then t.dist else 0)
    requires Progress(m.input, c.tokens + [t], m.base + m.blockStart, done') && m.blockStart <= m.strstart
    requires done == m.base + m.strstart - 1
    modifies c.Repr()
    ensures State(m, c, done') && Flushing(c, flush) && Emitted(c) == old(Emitted(c)) + [t]
  {
    hide Holds, Progress, Blocks, Coder.Valid, BitWriter.Sent, Lc, AllTokens, Full, Unflushed, CutAll, Expand, MustFlush;
    ghost var before, ts, b := AllTokens(c.log), c.tokens, m.base + m.blockStart;
    assert before + (ts + [t]) == before + ts + [t];
    ProgressSays(m.input, ts, b, done);
    flush := c.Tally(dist, lc, m.strstart - m.blockStart, t);
    TallyFlushes(ts, t, m.input[..b], m.input[..done], m.strstart - m.blockStart, flush);
  }

  /** A literal behind which the block may end. */
  method EmitLiteral(m: Matcher, c: Coder)
    requires m.strstart >= 1 && State(m, c, m.base + m.strstart - 1) && Ready(c)
    modifies c.Repr(), m`blockStart
    ensures State(m, c, m.base + m.strstart) && Ready(c)
    ensures Emitted(c) == old(Emitted(c)) + [Literal(m.input[m.base + m.strstart - 1])]
  {
    hide Progress, Blocks, Coder.Valid, BitWriter.Sent, BitWriter.Valid, Emitted, Chosen, Unflushed, Full, CutAll;
    ghost var done := m.base + m.strstart - 1;
    ProgressSays(m.input, c.tokens, m.base + m.blockStart, done);
    InWindow(m.window[..], m.strstart + m.lookahead, m.input, m.base, m.pos, m.strstart - 1);
    ghost var t := Literal(m.input[done]);
    LiteralStep(m.input, c.tokens, m.base + m.blockStart, done, t);
    var flush := Tally(m, c, 0, m.window[m.strstart - 1] as int, t, done, done + 1);
    if flush {
      Flush(m, c);
    }
  }

  // ---- Lazy matching

  /** The string at window index `start` is a match of length `n` for the string at `at`. */
  ghost predicate Found(m: Matcher, at: int, start: int, n: nat)
    reads m`base
  {
    m.base + at >= 0 && Repeats(m.input, m.base + at, at - start, n)
  }

  /** The search that has just been made. */
  ghost function LookNow(m: Matcher, len: nat): L.Look
    reads m
  {
    L.Look(m.base, m.base + m.strstart, m.pos, m.prevLength, len, m.base + m.matchStart)
  }

  /** The search for the string at strstart: it finds what it should, and a match that counts is real. */
  method Search(m: Matcher, hashHead: nat) returns (matchLength: nat)
    requires m.Valid() && m.ins == m.strstart + 1 && m.lookahead >= 1 && 2 <= m.prevLength <= W.MAX_MATCH
    requires m.strstart + 2 < m.window.Length && hashHead == W.Prior(m.window[..], m.strstart)
    modifies m`matchStart
    ensures 1 <= matchLength <= W.MAX_MATCH && (matchLength >= 2 || m.lookahead == 1)
    ensures matchLength >= W.MIN_MATCH && matchLength > m.prevLength ==>
              matchLength <= m.lookahead && Found(m, m.strstart, m.matchStart, matchLength)
    ensures L.Right(m.input, LookNow(m, matchLength))
  {
    hide Indexed, Agrees, Holds, W.Key, Covered, FirstBest, Visits, Repeats, L.Right, W.Last;
    matchLength := W.MIN_MATCH - 1;
    ghost var w, end := m.window[..], m.strstart + m.lookahead;
    if hashHead != 0 && m.prevLength < L.MAX_LAZY_MATCH && m.strstart - hashHead <= W.MAX_DIST {
      var best := m.LongestMatch(hashHead);
      matchLength := best;
      if matchLength > m.lookahead {
        matchLength := m.lookahead;
      }
      if best > m.prevLength {
        FirstIsMatch(w, Visits(w, hashHead, Limit(m.strstart), ChainLength(m.prevLength)), m.strstart, m.matchStart, best);
        WindowRepeats(w, end, m.input, m.base, m.pos, m.matchStart, m.strstart, best, matchLength);
      }
      if matchLength == W.MIN_MATCH && m.strstart - m.matchStart > W.TOO_FAR {
        matchLength := matchLength - 1;
      }
      L.SearchIs(w, end, m.input, m.base, m.pos, m.strstart, m.prevLength, best, m.matchStart, matchLength, hashHead,
                 Visits(w, hashHead, Limit(m.strstart), ChainLength(m.prevLength)));
    } else {
      L.NoSearchIs(w, end, m.input, m.base, m.pos, m.strstart, m.prevLength, m.matchStart);
    }
  }

  lemma FirstIsMatch(w: seq<byte>, v: seq<nat>, s: nat, start: int, best: nat)
    requires FirstBest(w, v, s, start, best)
    ensures 0 <= start && start + best <= |w| && s + best <= |w| && Agrees(w, start, s, best)
  {
  }

  /** The strings inside a match are put into the hash table; lookahead goes down along with strstart. */
  method SkipMatch(m: Matcher, length: nat)
    requires m.Valid() && m.ins == m.strstart + 1 && W.MIN_MATCH <= length <= W.MAX_MATCH && length <= m.lookahead + 1
    requires m.eofile || m.lookahead >= W.MIN_LOOKAHEAD
    modifies m`insH, m`ins, m`strstart, m`lookahead, m`prevLength, m.prev, m.head
    ensures m.Valid() && m.ins == m.strstart == old(m.strstart) + length - 1 && m.lookahead == old(m.lookahead) - (length - 1)
  {
    hide Indexed, Holds, W.Prior;
    m.prevLength := length - 2;
    ghost var end := m.strstart + m.lookahead;
    while m.prevLength != 0
      invariant m.Valid() && m.ins == m.strstart + 1 && m.strstart + m.lookahead == end
      invariant m.strstart == old(m.strstart) + length - 2 - m.prevLength && m.prevLength <= length - 2
      invariant m.eofile == old(m.eofile)
      decreases m.prevLength
    {
      m.strstart := m.strstart + 1;
      m.lookahead := m.lookahead - 1;
      var hashHead := m.InsertString(m.strstart);
      m.prevLength := m.prevLength - 1;
    }
    m.strstart := m.strstart + 1;
    m.lookahead := m.lookahead - 1;
  }

  /** What holds at the top of the loop. */
  ghost predicate Lazy(m: Matcher, matchAvailable: bool, matchLength: nat)
    reads m, m.window, m.prev, m.head
  {
    && m.Valid() && m.ins == m.strstart && 1 <= matchLength <= W.MAX_MATCH && (matchAvailable ==> m.strstart >= 1)
    && (matchLength >= 2 || (m.eofile && m.lookahead == 0))
    && (matchLength >= W.MIN_MATCH ==>
          matchAvailable && matchLength <= m.lookahead + 1 && Found(m, m.strstart - 1, m.matchStart, matchLength))
  }

  function Behind(matchAvailable: bool): nat { if matchAvailable then 1 else 0 }

  /** The next string is inserted and searched for. */
  method Look(m: Matcher, c: Coder, matchLength0: nat, ghost done: int) returns (prevMatch: int, matchLength: nat)
    requires State(m, c, done) && m.Valid() && m.ins == m.strstart && 2 <= matchLength0 <= W.MAX_MATCH && m.lookahead > 0
    requires m.eofile || m.lookahead >= W.MIN_LOOKAHEAD
    modifies m`insH, m`ins, m`prevLength, m`matchStart, m.prev, m.head
    ensures State(m, c, done) && m.Valid() && m.ins == m.strstart + 1 && m.prevLength == matchLength0 && prevMatch == old(m.matchStart)
    ensures 1 <= matchLength <= W.MAX_MATCH && (matchLength >= 2 || m.lookahead == 1) && L.Right(m.input, LookNow(m, matchLength))
    ensures matchLength >= W.MIN_MATCH && matchLength > m.prevLength ==>
              matchLength <= m.lookahead && Found(m, m.strstart, m.matchStart, matchLength)
  {
    hide Indexed, Holds, Progress, Blocks, Coder.Valid, BitWriter.Sent, BitWriter.Valid, Found, L.Right;
    prevMatch, matchLength := InsertAndSearch(m, matchLength0);
  }

  method InsertAndSearch(m: Matcher, matchLength0: nat) returns (prevMatch: int, matchLength: nat)
    requires m.Valid() && m.ins == m.strstart && 2 <= matchLength0 <= W.MAX_MATCH && m.lookahead > 0
    requires m.eofile || m.lookahead >= W.MIN_LOOKAHEAD
    modifies m`insH, m`ins, m`prevLength, m`matchStart, m.prev, m.head
    ensures m.Valid() && m.ins == m.strstart + 1 && m.prevLength == matchLength0 && prevMatch == old(m.matchStart)
    ensures 1 <= matchLength <= W.MAX_MATCH && (matchLength >= 2 || m.lookahead == 1) && L.Right(m.input, LookNow(m, matchLength))
    ensures matchLength >= W.MIN_MATCH && matchLength > m.prevLength ==>
              matchLength <= m.lookahead && Found(m, m.strstart, m.matchStart, matchLength)
  {
    hide Indexed, Holds, Found, W.Prior, L.Right;
    var hashHead := m.InsertString(m.strstart);
    m.prevLength := matchLength0;
    prevMatch := m.matchStart;
    matchLength := Search(m, hashHead);
  }

  /** strstart moves on by one byte. */
  method Advance(m: Matcher, c: Coder, ghost done: int)
    requires State(m, c, done) && m.Valid() && m.lookahead > 0
    modifies m`strstart, m`lookahead
    ensures State(m, c, done) && m.Valid() && m.strstart == old(m.strstart) + 1 && m.lookahead == old(m.lookahead) - 1
  {
    hide Indexed, Holds, Progress, Blocks, Coder.Valid, BitWriter.Sent, BitWriter.Valid;
    m.strstart := m.strstart + 1;
    m.lookahead := m.lookahead - 1;
  }

  /** SkipMatch changes nothing that the coder knows. */
  method Skip(m: Matcher, c: Coder, length: nat, ghost done: int)
    requires State(m, c, done)
    requires m.Valid() && m.ins == m.strstart + 1 && W.MIN_MATCH <= length <= W.MAX_MATCH && length <= m.lookahead + 1
    requires m.eofile || m.lookahead >= W.MIN_LOOKAHEAD
    modifies m`insH, m`ins, m`strstart, m`lookahead, m`prevLength, m.prev, m.head
    ensures State(m, c, done)
    ensures m.Valid() && m.ins == m.strstart == old(m.strstart) + length - 1 && m.lookahead == old(m.lookahead) - (length - 1)
  {
    hide Indexed, Holds, Progress, Blocks, Coder.Valid, BitWriter.Sent, BitWriter.Valid;
    SkipMatch(m, length);
  }

  /** The previous match is taken. */
  method TakeMatch(m: Matcher, c: Coder, prevMatch: int, length: nat)
    requires m.Valid() && m.strstart >= 1 && State(m, c, m.base + m.strstart - 1) && Ready(c)
    requires W.MIN_MATCH <= length <= W.MAX_MATCH && m.ins == m.strstart + 1 && length <= m.lookahead + 1
    requires Found(m, m.strstart - 1, prevMatch, length) && (m.eofile || m.lookahead >= W.MIN_LOOKAHEAD)
    modifies c.Repr(), m`insH, m`ins, m`strstart, m`lookahead, m`prevLength, m`blockStart, m.prev, m.head
    ensures m.Valid() && State(m, c, m.base + m.strstart) && Ready(c)
    ensures m.ins == m.strstart == old(m.strstart) + length - 1 && m.strstart + m.lookahead == old(m.strstart + m.lookahead)
    ensures Emitted(c) == old(Emitted(c)) + [Match(length, old(m.strstart) - 1 - prevMatch)]
  {
    hide Indexed, Holds, Progress, Blocks, Coder.Valid, BitWriter.Sent, BitWriter.Valid, State, Emitted, Chosen, Unflushed, Full, CutAll;
    StateSays(m, c, m.base + m.strstart - 1);
    var flush := TallyMatch(m, c, prevMatch, length);
    Skip(m, c, length, m.base + m.strstart - 1 + length);
    if flush {
      Flush(m, c);
    }
  }

  lemma StateSays(m: Matcher, c: Coder, done: int)
    requires State(m, c, done)
    ensures Separate(m, c) && m.Filled() && 0 <= m.base + m.blockStart <= done <= |m.input|
  {
    hide Coder.Valid;
  }

  method TallyMatch(m: Matcher, c: Coder, prevMatch: int, length: nat) returns (flush: bool)
    requires m.strstart >= 1 && State(m, c, m.base + m.strstart - 1) && Ready(c)
    requires W.MIN_MATCH <= length <= W.MAX_MATCH && Found(m, m.strstart - 1, prevMatch, length)
    modifies c.Repr()
    ensures State(m, c, m.base + m.strstart - 1 + length) && Flushing(c, flush)
    ensures m.strstart - 1 - prevMatch >= 1 && Emitted(c) == old(Emitted(c)) + [Match(length, m.strstart - 1 - prevMatch)]
  {
    hide Holds, Progress, Blocks, Coder.Valid, BitWriter.Sent, BitWriter.Valid, Emitted, Unflushed, Full, CutAll;
    ghost var done, t := m.base + m.strstart - 1, Match(length, m.strstart - 1 - prevMatch);
    ProgressSays(m.input, c.tokens, m.base + m.blockStart, done);
    MatchStep(m.input, c.tokens, m.base + m.blockStart, done, t);
    flush := Tally(m, c, m.strstart - 1 - prevMatch, length - W.MIN_MATCH, t, done, done + length);
  }

  /** The searches so far explain all tokens so far. */
  ghost predicate Traced(m: Matcher, c: Coder, looks: seq<L.Look>, matchAvailable: bool, matchLength: nat)
    reads m, c
  {
    && L.Run(m.input, looks) && Emitted(c) == L.Tokens(m.input, looks)
    && (var st := L.Behind(looks);
        && st.at == m.base + m.strstart && st.pending == matchAvailable && st.len == matchLength
        && (matchLength >= W.MIN_MATCH ==> st.from == m.base + m.matchStart))
    && forall i :: 0 <= i < |looks| ==> L.Ahead(looks[i], m.eofile, m.pos)
  }

  /** What one search adds to the tokens. */
  ghost function Adds(input: seq<byte>, at: int, matchAvailable: bool, prevLength: nat, prevMatch: int, len: nat): seq<Token>
    requires matchAvailable ==> 0 < at <= |input|
  {
    if prevLength >= W.MIN_MATCH && len <= prevLength then [Match(prevLength, if at - 1 > prevMatch then at - 1 - prevMatch else 0)]
    else if matchAvailable then [Literal(input[at - 1])]
    else []
  }

  /** One round of the loop: the match of the round before is taken iff there is one and the new one is not longer. */
  method Step(m: Matcher, c: Coder, matchAvailable0: bool, matchLength0: nat)
    returns (matchAvailable: bool, matchLength: nat, ghost l: L.Look)
    requires State(m, c, m.base + m.strstart - Behind(matchAvailable0)) && Ready(c)
    requires Lazy(m, matchAvailable0, matchLength0) && m.lookahead > 0 && (m.eofile || m.lookahead >= W.MIN_LOOKAHEAD)
    modifies c.Repr(), m`insH, m`ins, m`strstart, m`lookahead, m`prevLength, m`matchStart, m`blockStart, m.prev, m.head
    ensures State(m, c, m.base + m.strstart - Behind(matchAvailable)) && Ready(c)
    ensures Lazy(m, matchAvailable, matchLength) && m.strstart > old(m.strstart)
    ensures l.base == m.base && l.at == m.base + old(m.strstart) < |m.input| && l.end == m.pos && l.prev == matchLength0
    ensures l.end - l.at == old(m.lookahead) && L.Right(m.input, l)
    ensures Emitted(c) == old(Emitted(c)) + Adds(m.input, l.at, matchAvailable0, matchLength0, old(m.base + m.matchStart), l.len)
    ensures if matchLength0 >= W.MIN_MATCH && l.len <= matchLength0
            then !matchAvailable && matchLength == W.MIN_MATCH - 1 && m.base + m.strstart == l.at + matchLength0 - 1
            else matchAvailable && matchLength == l.len && m.base + m.strstart == l.at + 1 && m.base + m.matchStart == l.from
  {
    hide Indexed, Holds, Progress, Blocks, Coder.Valid, BitWriter.Sent, BitWriter.Valid, State, Emitted, L.Right, Adds, Unflushed;
    ghost var done := m.base + m.strstart - Behind(matchAvailable0);
    StateSays(m, c, done);
    InInput(m);
    ghost var at, from := m.base + m.strstart, m.base + m.matchStart;
    var prevMatch;
    prevMatch, matchLength := Look(m, c, matchLength0, done);
    l := LookNow(m, matchLength);
    AddsWhat(m.input, at, matchAvailable0, matchLength0, from, matchLength);
    if m.prevLength >= W.MIN_MATCH && matchLength <= m.prevLength {
      TakeMatch(m, c, prevMatch, m.prevLength);
      matchAvailable, matchLength := false, W.MIN_MATCH - 1;
    } else {
      Pass(m, c, matchAvailable0);
      matchAvailable := true;
    }
  }

  lemma AddsWhat(input: seq<byte>, at: int, matchAvailable: bool, prevLength: nat, prevMatch: int, len: nat)
    requires matchAvailable ==> 0 < at <= |input|
    ensures prevLength >= W.MIN_MATCH && len <= prevLength && at - 1 > prevMatch ==>
              Adds(input, at, matchAvailable, prevLength, prevMatch, len) == [Match(prevLength, at - 1 - prevMatch)]
    ensures !(prevLength >= W.MIN_MATCH && len <= prevLength) ==>
              Adds(input, at, matchAvailable, prevLength, prevMatch, len) == if matchAvailable then [Literal(input[at - 1])] else []
  {
  }

  /** The byte before is a literal, if it is pending, and this one is pending now. */
  method Pass(m: Matcher, c: Coder, matchAvailable: bool)
    requires State(m, c, m.base + m.strstart - Behind(matchAvailable)) && Ready(c) && m.Valid() && m.lookahead > 0
    requires matchAvailable ==> 1 <= m.strstart && m.base + m.strstart <= |m.input|
    modifies c.Repr(), m`strstart, m`lookahead, m`blockStart
    ensures State(m, c, m.base + m.strstart - 1) && Ready(c)
    ensures m.Valid() && m.strstart == old(m.strstart) + 1 && m.lookahead == old(m.lookahead) - 1
    ensures Emitted(c) == old(Emitted(c)) + if matchAvailable then [Literal(m.input[m.base + old(m.strstart) - 1])] else []
  {
    hide Indexed, Holds, Progress, Blocks, Coder.Valid, BitWriter.Sent, BitWriter.Valid, State, Emitted, Unflushed;
    ghost var before := Emitted(c);
    assert before + [] == before;
    StateSays(m, c, m.base + m.strstart - Behind(matchAvailable));
    if matchAvailable {
      EmitLiteral(m, c);
    }
    Advance(m, c, m.base + m.strstart);
  }

  lemma InInput(m: Matcher)
    requires m.Filled() && m.lookahead > 0
    ensures m.base + m.strstart < m.pos <= |m.input| && m.pos - (m.base + m.strstart) == m.lookahead
  {
  }

  /** One more search is explained. */
  lemma TraceMore(input: seq<byte>, looks: seq<L.Look>, l: L.Look, tokens: seq<Token>, at: int, matchAvailable: bool, len: nat, from: int)
    requires L.Run(input, looks) && tokens == L.Tokens(input, looks) && L.Right(input, l) && l.at == at < |input| && l.prev == len
    requires var st := L.Behind(looks);
             st.at == at && st.pending == matchAvailable && st.len == len && (len >= W.MIN_MATCH ==> st.from == from && matchAvailable)
    requires matchAvailable ==> at > 0
    ensures L.Run(input, looks + [l]) && L.Tokens(input, looks + [l]) == tokens + Adds(input, at, matchAvailable, len, from, l.len)
    ensures var st := L.Behind(looks + [l]);
            if len >= W.MIN_MATCH && l.len <= len then st == L.Lazy(at + len - 1, false, W.MIN_MATCH - 1, l.from)
            else st == L.Lazy(at + 1, true, l.len, l.from)
  {
    hide L.Right;
    L.RunMore(input, looks, l);
  }

  /** The refill at the end of a round. */
  method Fill(m: Matcher, c: Coder, matchAvailable: bool, matchLength: nat)
    requires State(m, c, m.base + m.strstart - Behind(matchAvailable)) && Lazy(m, matchAvailable, matchLength)
    requires m !in c.Repr()
    modifies m, m.window, m.prev, m.head
    ensures State(m, c, m.base + m.strstart - Behind(matchAvailable)) && Lazy(m, matchAvailable, matchLength)
    ensures m.eofile || m.lookahead >= W.MIN_LOOKAHEAD
    ensures m.base + m.strstart == old(m.base + m.strstart) && m.base + m.matchStart == old(m.base + m.matchStart)
    ensures (old(m.eofile) ==> m.eofile && m.pos == old(m.pos)) && m.pos >= old(m.pos)
  {
    hide Indexed, Holds, Progress, Blocks, Coder.Valid, BitWriter.Sent, BitWriter.Valid, Repeats;
    while m.lookahead < W.MIN_LOOKAHEAD && !m.eofile
      invariant State(m, c, m.base + m.strstart - Behind(matchAvailable)) && Lazy(m, matchAvailable, matchLength)
      invariant m.base + m.strstart == old(m.base + m.strstart) && m.base + m.matchStart == old(m.base + m.matchStart)
      invariant (old(m.eofile) ==> m.eofile && m.pos == old(m.pos)) && m.pos >= old(m.pos)
      decreases !m.eofile, W.MIN_LOOKAHEAD - m.lookahead
    {
      m.FillWindow();
    }
  }

  /** The bits of all blocks, and fewer than eight to fill the last byte. */
  ghost predicate Closes(log: seq<Piece>, bits: seq<bool>) {
    Logged(log, AllBits(log)) && |AllBits(log)| <= |bits| < |AllBits(log)| + 8 && bits[..|AllBits(log)|] == AllBits(log)
  }

  lemma IsClosed(log: seq<Piece>, sent: seq<bool>, pad: seq<bool>)
    requires Logged(log, sent) && |pad| < 8
    ensures Closes(log, sent + pad)
  {
    hide Chosen;
    assert (sent + pad)[..|sent|] == sent;
  }

  /** FLUSH_BLOCK(1): what was written decodes to everything tallied. */
  method Finish(m: Matcher, c: Coder) returns (len: nat)
    requires State(m, c, m.base + m.strstart) && Endable(c.tokens)
    modifies c.Repr()
    ensures c.bw.Valid() && m.base + m.strstart <= |m.input| && CutAll(c.log)
    ensures Inflate(ByteBits(c.bw.Bytes())) == Some(m.input[..m.base + m.strstart]) && len == |c.bw.Bytes()| % (ULG / 8)
    ensures Closes(c.log, ByteBits(c.bw.Bytes())) && AllTokens(c.log) == old(Emitted(c))
    ensures len == |c.bw.Bytes()| <==> |c.bw.Bytes()| < ULG / 8
  {
    hide Holds, Progress, Blocks, Expand, Coder.Valid, BlockReads, StaticBlock, StaticGood, Inflate, InflateFrom, ByteBits;
    hide BitWriter.Sent, BitWriter.Valid, Chosen, Logged, AllTokens, Closes, Full, CutAll, Unflushed;
    c.Basics();
    ghost var sent, b, e := c.bw.Sent(), m.base + m.blockStart, m.base + m.strstart;
    ProgressSays(m.input, c.tokens, b, e);
    var buf := BlockBuffer(m);
    ghost var out, data, log := m.input[..b], m.input[b..e], c.log;
    assert out + data == m.input[..e];
    ghost var p, pad;
    len, p, pad := c.FlushBlock(buf, m.strstart - m.blockStart, true, out, data);
    TokensMore(log, p);
    CutMore(log, p);
    IsClosed(c.log, sent + p.bits, pad);
    LastBlock(sent, out, p.bits, m.input[..e], pad);
  }

  /** deflate: all of the file that could be read, compressed; the tokens are those of lazy matching. */
  method Deflate(m: Matcher, c: Coder) returns (len: nat, ghost looks: seq<L.Look>)
    requires State(m, c, 0) && c.lastLit == 0 && c.tokens == [] && m.base == 0 && m.strstart == 0 && (m.lookahead > 0 ==> m.Valid() && m.ins == 0)
    requires (m.eofile || m.lookahead >= W.MIN_LOOKAHEAD) && Emitted(c) == []
    modifies c.Repr(), m, m.window, m.prev, m.head
    ensures c.bw.Valid() && m.pos <= |m.input| && (m.Reliable() ==> m.pos == |m.input|)
    ensures Inflate(ByteBits(c.bw.Bytes())) == Some(m.input[..m.pos])
    ensures len == |c.bw.Bytes()| % (ULG / 8) && (len == |c.bw.Bytes()| <==> |c.bw.Bytes()| < ULG / 8)
    ensures Closes(c.log, ByteBits(c.bw.Bytes())) && CutAll(c.log) && L.Run(m.input, looks) && AllTokens(c.log) == L.AllOf(m.input, looks)
    ensures L.Behind(looks).at == m.pos && forall i :: 0 <= i < |looks| ==> L.Ahead(looks[i], true, m.pos)
  {
    hide Indexed, Holds, Progress, Blocks, Coder.Valid, BitWriter.Sent, BitWriter.Valid, Repeats, Inflate, ByteBits, Matcher.Valid, State,
         Emitted, Closes, AllTokens, L.Right, L.Run, L.Tokens, L.Behind, Unflushed, CutAll, Endable;
    StateSays(m, c, 0);
    var matchAvailable, matchLength: nat := false, W.MIN_MATCH - 1;
    looks := [];
    NothingTraced(m.input);
    NothingFull();
    while m.lookahead != 0
      invariant State(m, c, m.base + m.strstart - Behind(matchAvailable)) && Ready(c)
      invariant m.lookahead > 0 ==> Lazy(m, matchAvailable, matchLength)
      invariant matchAvailable ==> m.strstart >= 1
      invariant m.eofile || m.lookahead >= W.MIN_LOOKAHEAD
      invariant Traced(m, c, looks, matchAvailable, matchLength)
      decreases |m.input| - (m.base + m.strstart)
    {
      matchAvailable, matchLength, looks := Round(m, c, matchAvailable, matchLength, looks);
      StateSays(m, c, m.base + m.strstart - Behind(matchAvailable));
    }
    StateSays(m, c, m.base + m.strstart - Behind(matchAvailable));
    EndOfInput(m);
    ghost var before := Emitted(c);
    LastOf(m.input, looks);
    UnflushedEndable(c.tokens);
    if matchAvailable {
      LastLiteral(m, c);
    }
    StateSays(m, c, m.base + m.strstart);
    len := Finish(m, c);
  }

  lemma NothingTraced(input: seq<byte>)
    ensures L.Run(input, []) && L.Tokens(input, []) == [] && L.Behind([]) == L.START
  {
  }

  lemma LastOf(input: seq<byte>, looks: seq<L.Look>)
    requires L.Run(input, looks)
    ensures var st := L.Behind(looks);
            L.AllOf(input, looks) == L.Tokens(input, looks) + if st.pending && 0 < st.at <= |input| then [Literal(input[st.at - 1])] else []
    ensures L.Tokens(input, looks) + [] == L.Tokens(input, looks)
  {
    hide L.Run, L.Tokens, L.Behind;
  }

  /** A round and the refill behind it. */
  method Round(m: Matcher, c: Coder, matchAvailable0: bool, matchLength0: nat, ghost looks0: seq<L.Look>)
    returns (matchAvailable: bool, matchLength: nat, ghost looks: seq<L.Look>)
    requires State(m, c, m.base + m.strstart - Behind(matchAvailable0)) && Ready(c)
    requires Lazy(m, matchAvailable0, matchLength0) && m.lookahead > 0 && (m.eofile || m.lookahead >= W.MIN_LOOKAHEAD)
    requires Traced(m, c, looks0, matchAvailable0, matchLength0)
    modifies c.Repr(), m, m.window, m.prev, m.head
    ensures State(m, c, m.base + m.strstart - Behind(matchAvailable)) && Ready(c)
    ensures Lazy(m, matchAvailable, matchLength) && m.base + m.strstart > old(m.base + m.strstart)
    ensures (m.eofile || m.lookahead >= W.MIN_LOOKAHEAD) && Traced(m, c, looks, matchAvailable, matchLength)
  {
    hide Indexed, Holds, Progress, Blocks, Coder.Valid, BitWriter.Sent, BitWriter.Valid, Repeats, State, Emitted, Matcher.Valid, Unflushed,
         L.Right, L.Run, L.Tokens, L.Behind, Adds;
    ghost var at, from, tokens, input := m.base + m.strstart, m.base + m.matchStart, Emitted(c), m.input;
    StateSays(m, c, at - Behind(matchAvailable0));
    ghost var l;
    matchAvailable, matchLength, l := Step(m, c, matchAvailable0, matchLength0);
    TraceMore(input, looks0, l, tokens, at, matchAvailable0, matchLength0, from);
    looks := looks0 + [l];
    StateSays(m, c, m.base + m.strstart - Behind(matchAvailable));
    Fill(m, c, matchAvailable, matchLength);
  }

  lemma EndOfInput(m: Matcher)
    requires m.Filled() && m.lookahead == 0 && m.eofile
    ensures m.base + m.strstart == m.pos <= |m.input| && (m.Reliable() ==> m.pos == |m.input|)
  {
  }

  /** The literal that is left behind the loop. */
  method LastLiteral(m: Matcher, c: Coder)
    requires m.strstart >= 1 && State(m, c, m.base + m.strstart - 1) && Ready(c)
    modifies c.Repr()
    ensures State(m, c, m.base + m.strstart) && m.base + m.strstart <= |m.input| && Endable(c.tokens)
    ensures Emitted(c) == old(Emitted(c)) + [Literal(m.input[m.base + m.strstart - 1])]
  {
    hide Progress, Blocks, Coder.Valid, BitWriter.Sent, BitWriter.Valid, Emitted, Unflushed, Full, CutAll;
    ghost var done := m.base + m.strstart - 1;
    ProgressSays(m.input, c.tokens, m.base + m.blockStart, done);
    InWindow(m.window[..], m.strstart + m.lookahead, m.input, m.base, m.pos, m.strstart - 1);
    ghost var t := Literal(m.input[done]);
    LiteralStep(m.input, c.tokens, m.base + m.blockStart, done, t);
    var flush := Tally(m, c, 0, m.window[m.strstart - 1] as int, t, done, done + 1);
  }

  /** zip: the compressed data of a file, without gzip header and trailer. Its bits are those of blocks with the right
      encoding, whose tokens are those of lazy matching. */
  method Zip(input: seq<byte>, chunk: nat -> nat) returns (out: seq<octet>, ghost n: nat, ghost log: seq<Piece>, ghost looks: seq<L.Look>)
    ensures (forall k: nat :: chunk(k) > 0) ==> Inflate(ByteBits(out)) == Some(input)
    ensures n <= |input| && Inflate(ByteBits(out)) == Some(input[..n]) && ((forall k: nat :: chunk(k) > 0) ==> n == |input|)
    ensures Closes(log, ByteBits(out)) && CutAll(log) && L.Run(input, looks) && AllTokens(log) == L.AllOf(input, looks)
    ensures L.Behind(looks).at == n && forall i :: 0 <= i < |looks| ==> L.Ahead(looks[i], true, n)
  {
    hide Indexed, Holds, Progress, Blocks, Coder.Valid, BitWriter.Sent, BitWriter.Valid, Inflate, ByteBits, Matcher.Valid, State, Closes,
         AllTokens, L.Run, L.Behind, CutAll;
    var m, c := Begin(input, chunk);
    var len;
    len, looks := Deflate(m, c);
    n := m.pos;
    log := c.log;
    assert n == |input| ==> input[..n] == input;
    WriterSizes(c.bw);
    c.bw.FlushOutbuf();
    out := c.bw.written;
    assert c.bw.Bytes() == out;
  }

  /** ct_init and lm_init */
  method Begin(input: seq<byte>, chunk: nat -> nat) returns (m: Matcher, c: Coder)
    ensures fresh(m) && fresh(m.window) && fresh(m.prev) && fresh(m.head) && fresh(c.Repr()) && m.input == input && m.chunk == chunk
    ensures State(m, c, 0) && c.lastLit == 0 && c.tokens == [] && m.base == 0 && m.strstart == 0 && (m.lookahead > 0 ==> m.Valid() && m.ins == 0)
    ensures (m.eofile || m.lookahead >= W.MIN_LOOKAHEAD) && Emitted(c) == []
  {
    hide Indexed, Holds, Progress, Blocks, Coder.Valid, BitWriter.Sent, BitWriter.Valid;
    c := new Coder();
    c.Basics();
    m := OpenInput(input, chunk);
    NoBlocks();
    NothingYet(input, 0);
    assert input[..0] == [];
  }

  method OpenInput(input: seq<byte>, chunk: nat -> nat) returns (m: Matcher)
    ensures fresh({m, m.window, m.prev, m.head}) && m.input == input && m.chunk == chunk
    ensures m.Filled() && m.strstart == 0 && m.blockStart == 0 && m.base == 0 && (m.eofile || m.lookahead >= W.MIN_LOOKAHEAD)
    ensures m.lookahead > 0 ==> m.Valid() && m.ins == 0
  {
    hide Indexed, Holds;
    m := new Matcher(input, chunk);
    m.LmInit();
  }

  lemma WriterSizes(bw: BitWriter)
    requires bw.Valid()
    ensures bw.outbuf.Length == OUTBUFSIZ && bw.outcnt <= OUTBUFSIZ
  {
  }
}
