/** The window, the hash table and the match finder of the deflate compressor. */
module GzipMatcher {
  import opened Basics
  import opened GzipWindow

  const MAX_CHAIN_LENGTH := 4096
  const GOOD_MATCH := 32
  const NICE_MATCH := 258

  /** The strings at `p` and `q` agree on `n` bytes. */
  ghost predicate Agrees(w: seq<byte>, p: nat, q: nat, n: nat)
    requires p + n <= |w| && q + n <= |w|
  {
    w[p..p + n] == w[q..q + n]
  }

  /** memcpy(window, window + WSIZE, WSIZE) */
  method MoveDown(window: array<byte>)
    requires window.Length == WINDOW_SIZE + GUARD
    modifies window
    ensures window[..] == Moved(old(window[..]))
  {
    for n := 0 to WSIZE
      invariant forall i :: 0 <= i < n ==> window[i] == old(window[i + WSIZE])
      invariant forall i :: n <= i < window.Length ==> window[i] == old(window[i])
    {
      window[n] := window[n + WSIZE];
    }
  }

  /** The loops that shift the positions in `head` and `prev`. */
  method SlideTable(table: array<nat>)
    modifies table
    ensures table[..] == SlidAll(old(table[..]))
  {
    for n := 0 to table.Length
      invariant forall i :: 0 <= i < n ==> table[i] == Slid(old(table[i]))
      invariant forall i :: n <= i < table.Length ==> table[i] == old(table[i])
    {
      var m := table[n];
      table[n] := if m >= WSIZE then m - WSIZE else 0;
    }
  }

  /** The bytes `input[p..p + n]` go to `window[at..]`. */
  method CopyIn(window: array<byte>, at: nat, input: seq<byte>, p: nat, n: nat)
    requires at + n <= window.Length && p + n <= |input|
    modifies window
    ensures window[..] == old(window[..at]) + input[p..p + n] + old(window[at + n..])
  {
    for i := 0 to n
      invariant forall k :: at <= k < at + i ==> window[k] == input[p + (k - at)]
      invariant forall k :: 0 <= k < window.Length && !(at <= k < at + i) ==> window[k] == old(window[k])
    {
      window[at + i] := input[p + i];
    }
  }

  /** The positions that a search from `c` visits, `n` of them at most: one string after the other with the same hash key. */
  ghost function Visits(w: seq<byte>, c: nat, limit: nat, n: nat): seq<nat>
    requires c + 2 < |w|
    decreases n
  {
    var q := Prior(w, c);
    [c] + if n <= 1 || q <= limit then [] else Visits(w, q, limit, n - 1)
  }

  /** The string at `c` is no longer match for the string at `s` than `best`. */
  ghost predicate NoLonger(w: seq<byte>, c: nat, s: nat, best: nat) {
    best >= MAX_MATCH || !(c + best < |w| && s + best < |w| && Agrees(w, c, s, best + 1))
  }

  lemma AgreesMore(w: seq<byte>, p: nat, q: nat, n: nat)
    requires p + n < |w| && q + n < |w| && Agrees(w, p, q, n) && w[p + n] == w[q + n]
    ensures Agrees(w, p, q, n + 1)
  {
    assert w[p..p + n + 1] == w[p..p + n] + [w[p + n]];
    assert w[q..q + n + 1] == w[q..q + n] + [w[q + n]];
  }

  lemma AgreesLess(w: seq<byte>, p: nat, q: nat, n: nat)
    requires p + n < |w| && q + n < |w| && Agrees(w, p, q, n + 1)
    ensures Agrees(w, p, q, n) && w[p + n] == w[q + n]
  {
    assert w[p..p + n] == w[p..p + n + 1][..n] && w[q..q + n] == w[q..q + n + 1][..n];
    assert w[p + n] == w[p..p + n + 1][n] == w[q..q + n + 1][n] == w[q + n];
  }

  lemma FirstThree(w: seq<byte>, p: nat, q: nat)
    requires p + 2 < |w| && q + 2 < |w| && w[p] == w[q] && w[p + 1] == w[q + 1] && w[p + 2] == w[q + 2]
    ensures Agrees(w, p, q, 3)
  {
  }

  lemma AtMaximum(w: seq<byte>, c: nat, s: nat)
    ensures NoLonger(w, c, s, MAX_MATCH)
  {
  }

  lemma Differ(w: seq<byte>, c: nat, s: nat, i: nat, best: nat)
    requires i <= best && c + best < |w| && s + best < |w| && w[c + i] != w[s + i]
    ensures NoLonger(w, c, s, best)
  {
    assert w[c..c + best + 1][i] != w[s..s + best + 1][i];
  }

  lemma AgreesFront(w: seq<byte>, p: nat, q: nat, n: nat, k: nat)
    requires k <= n && p + n <= |w| && q + n <= |w| && Agrees(w, p, q, n)
    ensures Agrees(w, p, q, k)
  {
    assert w[p..p + k] == w[p..p + n][..k] && w[q..q + k] == w[q..q + n][..k];
  }

  /** A comparison gets behind the window exactly if nothing differs before its end. */
  lemma ReadsBehind(w: seq<byte>, m: nat, s: nat, len: nat)
    requires |w| == WINDOW_SIZE + GUARD && m < s < WINDOW_SIZE && 3 <= len <= MAX_MATCH && Agrees(w, m, s, len) && NoLonger(w, m, s, len)
    ensures s + len >= WINDOW_SIZE <==> WINDOW_SIZE - s <= MAX_MATCH && Agrees(w, m, s, WINDOW_SIZE - s)
  {
    hide Agrees;
    var k := WINDOW_SIZE - s;
    if k <= len {
      AgreesFront(w, m, s, len, k);
    } else if k <= MAX_MATCH && Agrees(w, m, s, k) {
      AgreesFront(w, m, s, k, len + 1);
    }
  }

  /** An input on which it does: 65534 zeros. When fewer than MIN_LOOKAHEAD of them are left, strstart is 65273 and
      fill_window marks the end without a slide; at the last 258 positions of the window every candidate agrees up to
      the end. */
  lemma ZerosReadBehind(w: seq<byte>, m: nat, s: nat)
    requires |w| == WINDOW_SIZE + GUARD && m < s < WINDOW_SIZE && forall i :: 0 <= i < WINDOW_SIZE ==> w[i] == 0
    ensures 65534 - (MIN_LOOKAHEAD - 1) == 65273 < WSIZE + MAX_DIST
    ensures WINDOW_SIZE - s <= MAX_MATCH ==> Agrees(w, m, s, WINDOW_SIZE - s)
  {
  }

  lemma NoLongerGrows(w: seq<byte>, c: nat, s: nat, best: nat, best': nat)
    requires NoLonger(w, c, s, best) && best <= best'
    ensures NoLonger(w, c, s, best')
  {
    if c + best' < |w| && s + best' < |w| {
      assert w[c..c + best + 1] == w[c..c + best' + 1][..best + 1];
      assert w[s..s + best + 1] == w[s..s + best' + 1][..best + 1];
    }
  }

  ghost predicate Covered(w: seq<byte>, all: seq<nat>, s: nat, best: nat) {
    forall j :: 0 <= j < |all| ==> NoLonger(w, all[j], s, best)
  }

  /** The first of these strings that matches on `best` bytes. */
  ghost predicate FirstBest(w: seq<byte>, all: seq<nat>, s: nat, start: int, best: nat) {
    && best >= 1
    && exists i :: 0 <= i < |all| && all[i] == start && start + best <= |w| && s + best <= |w| && Agrees(w, all[i], s, best)
                   && Covered(w, all[..i], s, best - 1)
  }

  /** One more string has been looked at. */
  lemma BestStep(w: seq<byte>, all: seq<nat>, k: nat, s: nat, best: nat, len: nat)
    requires k < |all| && Covered(w, all[..k], s, best) && 1 <= best <= len && NoLonger(w, all[k], s, len)
    requires len > best ==> all[k] + len <= |w| && s + len <= |w| && Agrees(w, all[k], s, len)
    ensures Covered(w, all[..k + 1], s, len)
    ensures len > best ==> FirstBest(w, all[..k + 1], s, all[k], len)
  {
    hide NoLonger, Agrees;
    forall j | 0 <= j < k ensures NoLonger(w, all[j], s, len) && (len > best ==> NoLonger(w, all[j], s, len - 1)) {
      assert all[..k][j] == all[j];
      NoLongerGrows(w, all[j], s, best, len);
      if len > best {
        NoLongerGrows(w, all[j], s, best, len - 1);
      }
    }
    if len > best {
      assert all[..k + 1][..k] == all[..k] && all[..k + 1][k] == all[k];
    }
  }

  lemma BestLater(w: seq<byte>, all: seq<nat>, k: nat, n: nat, s: nat, start: int, best: nat)
    requires k <= n <= |all| && FirstBest(w, all[..k], s, start, best)
    ensures FirstBest(w, all[..n], s, start, best)
  {
    hide Agrees, Covered;
    var i :| 0 <= i < k && all[..k][i] == start && start + best <= |w| && s + best <= |w| && Agrees(w, all[..k][i], s, best)
             && Covered(w, all[..k][..i], s, best - 1);
    assert all[..n][i] == all[..k][i] && all[..n][..i] == all[..k][..i];
  }

  lemma AllCovered(w: seq<byte>, all: seq<nat>, s: nat)
    ensures Covered(w, all, s, MAX_MATCH)
  {
  }

  lemma ChainLink(w: seq<byte>, prev: seq<nat>, head: seq<nat>, ins: nat, p: nat)
    requires Chains(w, prev, head, ins) && p < ins <= p + WSIZE
    ensures prev[p % WSIZE] == Prior(w, p)
  {
  }

  /** A search visits at most `n` strings, all with one hash key, from late to early, above the limit. */
  lemma {:induction false} VisitsDown(w: seq<byte>, c: nat, limit: nat, n: nat)
    requires c + 2 < |w| && limit < c && n >= 1
    ensures var v := Visits(w, c, limit, n);
            && 1 <= |v| <= n && v[0] == c
            && (forall i :: 0 <= i < |v| ==> limit < v[i] <= c && Key(w, v[i]) == Key(w, c))
            && (forall i, j :: 0 <= i < j < |v| ==> v[j] < v[i])
    decreases n
  {
    hide Key;
    var q := Prior(w, c);
    if n > 1 && q > limit {
      VisitsDown(w, q, limit, n - 1);
      assert Visits(w, c, limit, n) == [c] + Visits(w, q, limit, n - 1);
    }
  }

  /** It skips none of them, unless it has seen `n`. */
  lemma {:induction false} VisitsAll(w: seq<byte>, c: nat, limit: nat, n: nat, r: nat)
    requires c + 2 < |w| && limit < c && n >= 1 && limit < r <= c && Key(w, r) == Key(w, c)
    ensures r in Visits(w, c, limit, n) || |Visits(w, c, limit, n)| == n
    decreases n
  {
    hide Key;
    var q := Prior(w, c);
    if r == c {
    } else {
      if q < r {
        LastSkips(w, Key(w, c), c, r);
      }
      if n > 1 && q > limit {
        VisitsAll(w, q, limit, n - 1, r);
      }
    }
  }

  /** Where a search stops, and how many strings it visits. */
  function Limit(s: nat): nat { if s > MAX_DIST then s - MAX_DIST else 0 }

  function ChainLength(prevLength: nat): nat { if prevLength >= GOOD_MATCH then MAX_CHAIN_LENGTH / 4 else MAX_CHAIN_LENGTH }

  lemma VisitsFirst(w: seq<byte>, c: nat, limit: nat, n: nat)
    requires c + 2 < |w|
    ensures Visits(w, c, limit, n) != [] && Visits(w, c, limit, n)[0] == c
  {
  }

  lemma VisitsNext(w: seq<byte>, c: nat, limit: nat, n: nat)
    requires c + 2 < |w|
    ensures var q := Prior(w, c);
            Visits(w, c, limit, n)[1..] == if n <= 1 || q <= limit then [] else Visits(w, q, limit, n - 1)
  {
    hide Prior;
  }

  lemma NoneVisited(w: seq<byte>, all: seq<nat>, s: nat, best: nat)
    ensures all[0..] == all && Covered(w, all[..0], s, best)
  {
  }

  /** The first `end` bytes of the window are the input from `base` to `pos`. */
  ghost predicate Holds(w: seq<byte>, end: nat, input: seq<byte>, base: nat, pos: nat) {
    end <= |w| && base + end == pos <= |input| && w[..end] == input[base..pos]
  }

  /** The strings below `ins` are in the hash table. Before the end of the file they are all
      made of valid bytes; behind it the window no longer changes. */
  ghost predicate Indexed(w: seq<byte>, prev: seq<nat>, head: seq<nat>, h: bv13, ins: nat, end: nat, eofile: bool) {
    && ins <= end && ins + 3 <= |w| && (eofile || ins + 2 <= end)
    && Chains(w, prev, head, ins) && Primed(h, w, ins)
  }

  lemma SlideState(w: seq<byte>, prev: seq<nat>, head: seq<nat>, h: bv13, ins: nat, end: nat, input: seq<byte>,
                   base: nat, pos: nat)
    requires WSIZE <= ins && end <= WINDOW_SIZE <= |w|
    requires Holds(w, end, input, base, pos) && Indexed(w, prev, head, h, ins, end, false)
    ensures Holds(Moved(w), end - WSIZE, input, base + WSIZE, pos)
    ensures Indexed(Moved(w), SlidAll(prev), SlidAll(head), h, ins - WSIZE, end - WSIZE, false)
  {
    hide Key, UpdateHash, Chains, Primed, Moved, SlidAll;
    SlideKeeps(w, prev, head, ins);
    PrimedSlides(h, w, Moved(w), ins);
    SlideInput(w, Moved(w), input, base, pos, end - WSIZE);
  }

  lemma ReadState(w: seq<byte>, w': seq<byte>, prev: seq<nat>, head: seq<nat>, h: bv13, ins: nat, end: nat,
                  input: seq<byte>, base: nat, pos: nat, n: nat)
    requires end + n <= |w| && pos + n <= |input|
    requires Holds(w, end, input, base, pos) && Indexed(w, prev, head, h, ins, end, false)
    requires w' == w[..end] + input[pos..pos + n] + w[end + n..]
    ensures Holds(w', end + n, input, base, pos + n)
    ensures Indexed(w', prev, head, h, ins, end + n, false)
  {
    hide Key, UpdateHash, Chains, Primed;
    ReadInput(w, w', input, base, pos, pos + n, end);
    ReadKeeps(w, w', prev, head, ins);
    PrimedReads(h, w, w', ins);
  }

  lemma InsertState(w: seq<byte>, prev: seq<nat>, head: seq<nat>, h: bv13, s: nat, end: nat, eofile: bool)
    requires Indexed(w, prev, head, h, s, end, eofile) && s < end && s + 4 <= |w| && (eofile || s + 3 <= end)
    ensures var k := Key(w, s);
            && UpdateHash(h, w[s + 2]) as int == k && |prev| == WSIZE && |head| == HASH_SIZE
            && Indexed(w, prev[s % WSIZE := head[k]], head[k := s], UpdateHash(h, w[s + 2]), s + 1, end, eofile)
            && head[k] == Prior(w, s)
  {
    hide Key, UpdateHash, Primed, Prior, Links, Heads;
    PrimedUpdate(h, w, s);
    InsertKeeps(w, prev, head, s);
  }

  class Matcher {
    const window: array<byte>
    const prev: array<nat>
    const head: array<nat>
    var insH: bv13
    var strstart: nat
    var lookahead: nat
    var matchStart: int
    var blockStart: int
    var prevLength: nat
    var eofile: bool
    // The input: what the file holds, how much of it is read, and what each read may return at
    // most. A read that returns nothing is an end of file or an error.
    const input: seq<byte>
    const chunk: nat -> nat
    var pos: nat
    var calls: nat
    // Window index 0 is stream position `base`; strings below `ins` are in the hash table.
    ghost var base: nat
    ghost var ins: nat

    /** Every read returns something, until the file ends. */
    ghost predicate Reliable() { forall k: nat :: chunk(k) > 0 }

    /** The window holds the last bytes read. */
    ghost predicate Filled()
      reads this, window
    {
      && window.Length == WINDOW_SIZE + GUARD && prev.Length == WSIZE && head.Length == HASH_SIZE && prev != head
      && Holds(window[..], strstart + lookahead, input, base, pos)
      && strstart + lookahead <= WINDOW_SIZE && (eofile && Reliable() ==> pos == |input|)
    }

    ghost predicate Valid()
      reads this, window, prev, head
    {
      Filled() && Indexed(window[..], prev[..], head[..], insH, ins, strstart + lookahead, eofile)
    }

    constructor (input: seq<byte>, chunk: nat -> nat)
      ensures this.input == input && this.chunk == chunk && pos == 0 && calls == 0 && fresh(window) && fresh(prev) && fresh(head)
      ensures window.Length == WINDOW_SIZE + GUARD && prev.Length == WSIZE && head.Length == HASH_SIZE && prev != head
    {
      window, prev, head := new byte[WINDOW_SIZE + GUARD], new nat[WSIZE], new nat[HASH_SIZE];
      this.input, this.chunk, pos, calls := input, chunk, 0, 0;
    }

    /** INSERT_STRING at position `ins`. */
    method InsertString(s: nat) returns (hashHead: nat)
      requires Valid() && s == ins && s < strstart + lookahead
      requires eofile || s + 3 <= strstart + lookahead
      modifies this`insH, this`ins, prev, head
      ensures Valid() && ins == s + 1 && s + 2 < window.Length && hashHead == Prior(window[..], s)
    {
      hide Indexed, Key, UpdateHash, Prior;
      ghost var w, pr, hd := window[..], prev[..], head[..];
      InsertState(w, pr, hd, insH, s, strstart + lookahead, eofile);
      insH := UpdateHash(insH, window[s + MIN_MATCH - 1]);
      hashHead := head[insH as int];
      prev[s % WSIZE] := hashHead;
      head[insH as int] := s;
      ins := s + 1;
      assert prev[..] == pr[s % WSIZE := hashHead];
      assert head[..] == hd[Key(w, s) := s];
    }

    /** file_read: at most `size` bytes of the file go to `window[at..]`. */
    method FileRead(at: nat, size: nat) returns (n: nat)
      requires window.Length == WINDOW_SIZE + GUARD && at + size <= WINDOW_SIZE && pos <= |input|
      modifies this`pos, this`calls, window
      ensures n <= size && pos == old(pos) + n <= |input| && calls == old(calls) + 1
      ensures n == 0 <==> size == 0 || chunk(old(calls)) == 0 || old(pos) == |input|
      ensures window[..] == old(window[..at]) + input[old(pos)..pos] + old(window[at + n..])
    {
      n := chunk(calls);
      calls := calls + 1;
      if n > size { n := size; }
      if n > |input| - pos { n := |input| - pos; }
      CopyIn(window, at, input, pos, n);
      pos := pos + n;
    }

    /** The part of fill_window that moves the upper half of the window down. */
    method Slide()
      requires Valid() && strstart >= WSIZE + MAX_DIST && ins == strstart && !eofile
      modifies this`base, this`ins, this`strstart, this`matchStart, this`blockStart, window, prev, head
      ensures Valid() && ins == strstart == old(strstart) - WSIZE && base == old(base) + WSIZE
      ensures matchStart == old(matchStart) - WSIZE && blockStart == old(blockStart) - WSIZE
    {
      hide Holds, Indexed, Moved, SlidAll;
      SlideState(window[..], prev[..], head[..], insH, ins, strstart + lookahead, input, base, pos);
      MoveDown(window);
      matchStart := matchStart - WSIZE;
      strstart := strstart - WSIZE;
      blockStart := blockStart - WSIZE;
      SlideTable(head);
      SlideTable(prev);
      base, ins := base + WSIZE, ins - WSIZE;
    }

    /** fill_window: slide if needed, then read. */
    method FillWindow()
      requires Valid() && ins == strstart && lookahead < MIN_LOOKAHEAD && !eofile
      modifies this`base, this`ins, this`strstart, this`matchStart, this`blockStart, this`lookahead, this`eofile, this`pos, this`calls
      modifies window, prev, head
      ensures Valid() && ins == strstart && base + strstart == old(base + strstart) && pos >= old(pos)
      ensures old(strstart) > 0 ==> strstart > 0
      ensures base + matchStart == old(base + matchStart) && base + blockStart == old(base + blockStart)
      ensures lookahead >= old(lookahead) && (lookahead > old(lookahead) || eofile)
      ensures base == if old(strstart) >= WSIZE + MAX_DIST then old(base) + WSIZE else old(base)
    {
      hide Chains, Primed;
      var more := WINDOW_SIZE - lookahead - strstart;
      if strstart >= WSIZE + MAX_DIST {
        Slide();
        more := more + WSIZE;
      }
      assert more >= 2;
      Refill(more);
    }

    /** Up to eight comparisons of the loop in longest_match. */
    method Eight(m: nat, i0: nat) returns (i: nat, same: bool, ghost last: nat)
      requires m + i0 + 8 < window.Length && strstart + i0 + 8 < window.Length
      requires Agrees(window[..], m, strstart, i0) && window[m + i0] == window[strstart + i0]
      ensures i0 < i <= i0 + 8 && (same ==> i == i0 + 8)
      ensures Agrees(window[..], m, strstart, i) && (same <==> window[m + i] == window[strstart + i])
      ensures last == strstart + i
    {
      hide Agrees;
      ghost var w := window[..];
      i, same, last := i0, true, strstart + i0;
      while same && i < i0 + 8
        invariant i0 <= i <= i0 + 8 && (i == i0 ==> same) && last == strstart + i
        invariant Agrees(w, m, strstart, i) && (same <==> w[m + i] == w[strstart + i])
        decreases i0 + 8 - i
      {
        AgreesMore(w, m, strstart, i);
        i := i + 1;
        last := strstart + i;
        same := window[strstart + i] == window[m + i];
      }
    }

    /** The comparison loop of longest_match; the end is checked at every eighth byte only. The last index that it reads is
        behind the window exactly if the strings agree up to the end of the window and the match may be that long. */
    method Compare(m: nat) returns (len: nat, ghost last: nat)
      requires window.Length == WINDOW_SIZE + GUARD && m < strstart < WINDOW_SIZE
      requires Agrees(window[..], m, strstart, 3)
      ensures 3 <= len <= MAX_MATCH && Agrees(window[..], m, strstart, len) && NoLonger(window[..], m, strstart, len)
      ensures last >= WINDOW_SIZE <==>
              WINDOW_SIZE - strstart <= MAX_MATCH && Agrees(window[..], m, strstart, WINDOW_SIZE - strstart)
    {
      hide Agrees, NoLonger;
      var same;
      len, same, last := 2, true, strstart + 2;
      AgreesLess(window[..], m, strstart, 2);
      while same && len < MAX_MATCH
        invariant 2 <= len <= MAX_MATCH && (len == 2 ==> same) && (same ==> len % 8 == 2) && last == strstart + len
        invariant Agrees(window[..], m, strstart, len) && (same <==> window[m + len] == window[strstart + len])
        decreases MAX_MATCH - len
      {
        len, same, last := Eight(m, len);
      }
      if same {
        AtMaximum(window[..], m, strstart);
      } else {
        Differ(window[..], m, strstart, len, len);
      }
      ReadsBehind(window[..], m, strstart, len);
    }

    /** One candidate of longest_match: skipped when it cannot be longer than `best`. */
    method Candidate(m: nat, best: nat) returns (len: nat)
      requires window.Length == WINDOW_SIZE + GUARD && m < strstart < WINDOW_SIZE && 1 <= best < MAX_MATCH
      requires Key(window[..], m) == Key(window[..], strstart)
      ensures best <= len <= MAX_MATCH && NoLonger(window[..], m, strstart, len)
      ensures len > best ==> Agrees(window[..], m, strstart, len)
    {
      hide Key, Agrees, NoLonger;
      ghost var w, s := window[..], strstart;
      if window[m + best] != window[strstart + best] {
        Differ(w, m, s, best, best);
        return best;
      }
      if window[m + best - 1] != window[strstart + best - 1] {
        Differ(w, m, s, best - 1, best);
        return best;
      }
      if window[m] != window[strstart] {
        Differ(w, m, s, 0, best);
        return best;
      }
      if window[m + 1] != window[strstart + 1] {
        Differ(w, m, s, 1, best);
        return best;
      }
      ThirdByte(w, m, s);
      FirstThree(w, m, s);
      ghost var last;
      len, last := Compare(m);
      if len <= best {
        NoLongerGrows(w, m, s, len, best);
        len := best;
      }
    }

    /** longest_match: the first of the longest matches among the strings that the search visits, if longer than prevLength. */
    method LongestMatch(hashHead: nat) returns (best: nat)
      requires Valid() && ins == strstart + 1 && 0 < hashHead < strstart && strstart - hashHead <= MAX_DIST
      requires Key(window[..], hashHead) == Key(window[..], strstart)
      requires 1 <= prevLength < MAX_MATCH
      modifies this`matchStart
      ensures prevLength <= best <= MAX_MATCH
      ensures best == prevLength ==> matchStart == old(matchStart)
      ensures best > prevLength ==> 0 < matchStart < strstart && strstart - matchStart <= MAX_DIST
      ensures var v := Visits(window[..], hashHead, Limit(strstart), ChainLength(prevLength));
              Covered(window[..], v, strstart, best) && (best > prevLength ==> FirstBest(window[..], v, strstart, matchStart, best))
    {
      hide Key, Agrees, NoLonger, Chains, Primed, Visits, Covered, FirstBest, Prior;
      var chain := MAX_CHAIN_LENGTH;
      best := prevLength;
      var limit := if strstart > MAX_DIST then strstart - MAX_DIST else 0;
      if prevLength >= GOOD_MATCH {
        chain := chain / 4;
      }
      ghost var w, s := window[..], strstart;
      ghost var all, k := Visits(w, hashHead, limit, chain), 0;
      NoneVisited(w, all, s, best);
      var cur := hashHead;
      while true
        invariant 0 < cur < strstart && strstart - cur <= MAX_DIST && Key(w, cur) == Key(w, s)
        invariant prevLength <= best < MAX_MATCH && chain >= 1
        invariant 0 <= k <= |all| && all[k..] == Visits(w, cur, limit, chain) && Covered(w, all[..k], s, best)
        invariant best == prevLength ==> matchStart == old(matchStart)
        invariant best > prevLength ==> 0 < matchStart < strstart && strstart - matchStart <= MAX_DIST
                                        && FirstBest(w, all[..k], s, matchStart, best)
        decreases chain
      {
        VisitsFirst(w, cur, limit, chain);
        assert all[k] == all[k..][0] == cur;
        ghost var was := best;
        var len := Candidate(cur, best);
        BestStep(w, all, k, s, best, len);
        if len > best {
          matchStart := cur;
          best := len;
        } else if was > prevLength {
          BestLater(w, all, k, k + 1, s, matchStart, best);
        }
        if len >= NICE_MATCH {
          AllCovered(w, all, s);
          BestLater(w, all, k + 1, |all|, s, matchStart, best);
          assert all[..|all|] == all;
          break;
        }
        ChainLink(w, prev[..], head[..], ins, cur);
        VisitsNext(w, cur, limit, chain);
        assert all[k..][1..] == all[k + 1..];
        cur := prev[cur % WSIZE];
        chain := chain - 1;
        k := k + 1;
        if !(cur > limit && chain != 0) {
          assert all[..k] == all;
          break;
        }
      }
    }

    /** The part of fill_window that reads. */
    method Refill(more: nat)
      requires Valid() && !eofile && 2 <= more && strstart + lookahead + more <= WINDOW_SIZE
      modifies this`lookahead, this`eofile, this`pos, this`calls, window
      ensures Valid() && lookahead >= old(lookahead) && (lookahead > old(lookahead) || eofile) && pos >= old(pos)
    {
      hide Indexed;
      ghost var w, pos0 := window[..], pos;
      ghost var end := strstart + lookahead;
      var n := FileRead(strstart + lookahead, more);
      ReadState(w, window[..], prev[..], head[..], insH, ins, end, input, base, pos0, n);
      if n == 0 {
        eofile := true;
        AtEof(window[..], prev[..], head[..], insH, ins, end);
      } else {
        lookahead := lookahead + n;
      }
    }

    /** fill_window before the first string is hashed: there is nothing to slide. */
    method FirstFill()
      requires Filled() && !eofile && strstart == 0 && lookahead < MIN_LOOKAHEAD && base == 0
      modifies this`lookahead, this`eofile, this`pos, this`calls, window
      ensures Filled() && lookahead >= old(lookahead) && (lookahead > old(lookahead) || eofile)
    {
      ghost var w, pos0 := window[..], pos;
      var n := FileRead(lookahead, WINDOW_SIZE - lookahead);
      ReadInput(w, window[..], input, 0, pos0, pos, lookahead);
      if n == 0 {
        eofile := true;
      } else {
        lookahead := lookahead + n;
      }
    }

    /** The reads of lm_init. */
    method FirstReads()
      requires pos == 0 && window.Length == WINDOW_SIZE + GUARD && prev.Length == WSIZE && head.Length == HASH_SIZE && prev != head
      modifies this`strstart, this`lookahead, this`eofile, this`pos, this`calls, this`base, window
      ensures Filled() && strstart == 0 && base == 0 && (eofile || lookahead >= MIN_LOOKAHEAD)
    {
      strstart, base := 0, 0;
      lookahead := FileRead(0, WINDOW_SIZE);
      if lookahead == 0 {
        eofile := true;
        return;
      }
      eofile := false;
      while lookahead < MIN_LOOKAHEAD && !eofile
        invariant Filled() && strstart == 0 && base == 0
        decreases !eofile, MIN_LOOKAHEAD - lookahead
      {
        FirstFill();
      }
    }

    /** lm_init */
    method LmInit()
      requires pos == 0 && window.Length == WINDOW_SIZE + GUARD && prev.Length == WSIZE && head.Length == HASH_SIZE && prev != head
      modifies this, window, head
      ensures Filled() && strstart == 0 && blockStart == 0 && base == 0 && (eofile || lookahead >= MIN_LOOKAHEAD)
      ensures lookahead > 0 ==> Valid() && ins == 0
    {
      hide Holds, UpdateHash;
      for n := 0 to HASH_SIZE
        invariant forall i :: 0 <= i < n ==> head[i] == 0
        modifies head
      {
        head[n] := 0;
      }
      blockStart, ins := 0, 0;
      FirstReads();
      if lookahead == 0 {
        return;
      }
      insH := 0;
      insH := UpdateHash(insH, window[0]);
      insH := UpdateHash(insH, window[1]);
      NoStrings(window[..], prev[..], head[..], insH, lookahead, eofile);
    }
  }

  lemma NoStrings(w: seq<byte>, prev: seq<nat>, head: seq<nat>, h: bv13, end: nat, eofile: bool)
    requires |w| == WINDOW_SIZE + GUARD && |prev| == WSIZE && |head| == HASH_SIZE && (eofile || end >= 2)
    requires (forall i :: 0 <= i < HASH_SIZE ==> head[i] == 0) && h == UpdateHash(UpdateHash(0, w[0]), w[1])
    ensures Indexed(w, prev, head, h, 0, end, eofile)
  {
    hide UpdateHash;
  }

  lemma AtEof(w: seq<byte>, prev: seq<nat>, head: seq<nat>, h: bv13, ins: nat, end: nat)
    requires Indexed(w, prev, head, h, ins, end, false)
    ensures Indexed(w, prev, head, h, ins, end, true)
  {
  }

  lemma ReadInput(w: seq<byte>, w': seq<byte>, input: seq<byte>, base: nat, pos0: nat, pos: nat, end: nat)
    requires |w| == |w'| && base + end == pos0 <= pos <= |input| && end + (pos - pos0) <= |w|
    requires w[..end] == input[base..pos0]
    requires w' == w[..end] + input[pos0..pos] + w[end + (pos - pos0)..]
    ensures w'[..end + (pos - pos0)] == input[base..pos]
    ensures forall i :: 0 <= i < end ==> w'[i] == w[i]
  {
    assert w'[..end + (pos - pos0)] == w[..end] + input[pos0..pos];
    assert input[base..pos] == input[base..pos0] + input[pos0..pos];
  }

  lemma PrimedReads(h: bv13, w: seq<byte>, w': seq<byte>, s: nat)
    requires s + 1 < |w| == |w'| && Primed(h, w, s)
    requires w'[s] == w[s] && w'[s + 1] == w[s + 1]
    ensures Primed(h, w', s)
  {
  }

  lemma PrimedSlides(h: bv13, w: seq<byte>, w': seq<byte>, s: nat)
    requires WSIZE <= s && s + 1 < |w| == |w'| && Primed(h, w, s)
    requires w'[s - WSIZE] == w[s] && w'[s - WSIZE + 1] == w[s + 1]
    ensures Primed(h, w', s - WSIZE)
  {
  }

  lemma SlideInput(w: seq<byte>, w': seq<byte>, input: seq<byte>, base: nat, pos: nat, end: nat)
    requires |w| == |w'| && end + WSIZE <= |w| && end <= WSIZE && base + WSIZE + end == pos <= |input|
    requires w[..end + WSIZE] == input[base..pos] && forall i :: 0 <= i < end ==> w'[i] == w[i + WSIZE]
    ensures w'[..end] == input[base + WSIZE..pos]
  {
    forall i | 0 <= i < end ensures w'[i] == input[base + WSIZE + i] {
      assert w[i + WSIZE] == w[..end + WSIZE][i + WSIZE] == input[base..pos][i + WSIZE];
    }
  }
}
