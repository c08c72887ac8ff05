/** The sliding window and the hash chains of the deflate compressor, on sequences: what every
    insertion, every slide and every read keeps, and what a chain walk may rely on. */
module GzipWindow {
  import opened Basics

  const WSIZE := 0x8000
  const WINDOW_SIZE := 2 * WSIZE
  const MIN_MATCH := 3
  const MAX_MATCH := 258
  const MIN_LOOKAHEAD := MAX_MATCH + MIN_MATCH + 1
  const MAX_DIST := WSIZE - MIN_LOOKAHEAD
  const HASH_SIZE := 8192
  const GUARD := MAX_MATCH + 1
  const TOO_FAR := 4096

  /** UPDATE_HASH with HASH_BITS = 13 and H_SHIFT = 5; the mask is the width of bv13. */
  function UpdateHash(h: bv13, c: byte): bv13 { (h << 5) ^ (c as bv13) }

  function Hash3(a: byte, b: byte, c: byte): bv13 { UpdateHash(UpdateHash(UpdateHash(0, a), b), c) }

  /** The hash table index of the string at `p`. */
  function Key(w: seq<byte>, p: nat): (k: nat)
    requires p + 2 < |w|
    ensures k < HASH_SIZE
  {
    Hash3(w[p], w[p + 1], w[p + 2]) as int
  }

  /** The running hash `h` has seen the two bytes at `s`. */
  ghost predicate Primed(h: bv13, w: seq<byte>, s: nat)
    requires s + 1 < |w|
  {
    UpdateHash(h, 0) == Hash3(w[s], w[s + 1], 0)
  }

  lemma PrimedUpdate(h: bv13, w: seq<byte>, s: nat)
    requires s + 2 < |w| && Primed(h, w, s)
    ensures UpdateHash(h, w[s + 2]) as int == Key(w, s)
    ensures s + 3 <= |w| ==> Primed(UpdateHash(h, w[s + 2]), w, s + 1)
  {
    HashShift(h, w[s], w[s + 1], w[s + 2]);
  }

  lemma HashShift(h: bv13, a: byte, b: byte, c: byte)
    requires UpdateHash(h, 0) == Hash3(a, b, 0)
    ensures UpdateHash(h, c) == Hash3(a, b, c)
    ensures UpdateHash(UpdateHash(h, c), 0) == Hash3(b, c, 0)
  {
  }

  /** Why byte 2 need not be compared: HASH_BITS >= 8 keeps all of it. */
  lemma ThirdByte(w: seq<byte>, p: nat, q: nat)
    requires p + 2 < |w| && q + 2 < |w| && Key(w, p) == Key(w, q)
    requires w[p] == w[q] && w[p + 1] == w[q + 1]
    ensures w[p + 2] == w[q + 2]
  {
    hide UpdateHash;
    SameIndex(Hash3(w[p], w[p + 1], w[p + 2]), Hash3(w[q], w[q + 1], w[q + 2]));
    LastByte(UpdateHash(UpdateHash(0, w[p]), w[p + 1]), w[p + 2], w[q + 2]);
  }

  lemma LastByte(h: bv13, x: byte, y: byte)
    requires UpdateHash(h, x) == UpdateHash(h, y)
    ensures x == y
  {
  }

  // ---- Hash chains

  /** The last position from 1 to below `n` whose string has the hash key `k`, or 0. */
  ghost function Last(w: seq<byte>, k: nat, n: nat): (q: nat)
    requires n + 2 <= |w|
    ensures q == 0 || (q < n && Key(w, q) == k)
  {
    if n <= 1 then 0 else if Key(w, n - 1) == k then n - 1 else Last(w, k, n - 1)
  }

  /** The last earlier string with the hash key of the string at `p`. */
  ghost function Prior(w: seq<byte>, p: nat): (q: nat)
    requires p + 2 < |w|
    ensures q == 0 || (q < p && Key(w, q) == Key(w, p))
  {
    Last(w, Key(w, p), p)
  }

  /** Nothing is skipped. */
  lemma {:induction false} LastSkips(w: seq<byte>, k: nat, n: nat, r: nat)
    requires n + 2 <= |w| && Last(w, k, n) < r < n
    ensures Key(w, r) != k
    decreases n
  {
    hide Key;
    if r == n - 1 {
    } else {
      LastSkips(w, k, n - 1, r);
    }
  }

  /** The table knows the last string of each hash key. */
  ghost predicate Heads(w: seq<byte>, head: seq<nat>, cur: nat)
    requires cur + 2 <= |w| && |head| == HASH_SIZE
  {
    forall h :: 0 <= h < HASH_SIZE ==> head[h] == Last(w, h, cur)
  }

  /** The strings at all positions below `cur` are inserted; `prev` still links the last WSIZE of them, each to the one
      before it. */
  ghost predicate Links(w: seq<byte>, prev: seq<nat>, cur: nat)
    requires cur + 2 <= |w| && |prev| == WSIZE
  {
    forall p :: 0 <= p < cur && cur - WSIZE <= p ==> prev[p % WSIZE] == Prior(w, p)
  }

  ghost predicate Chains(w: seq<byte>, prev: seq<nat>, head: seq<nat>, cur: nat) {
    && cur + 2 <= |w| && |prev| == WSIZE && |head| == HASH_SIZE
    && Heads(w, head, cur) && Links(w, prev, cur)
  }

  /** INSERT_STRING keeps the chains. */
  lemma InsertKeeps(w: seq<byte>, prev: seq<nat>, head: seq<nat>, s: nat)
    requires Chains(w, prev, head, s) && s + 2 < |w|
    ensures var h := Key(w, s);
            Chains(w, prev[s % WSIZE := head[h]], head[h := s], s + 1) && head[h] == Prior(w, s)
  {
    hide Key;
    var h := Key(w, s);
    var prev' := prev[s % WSIZE := head[h]];
    forall p | 0 <= p < s + 1 && s + 1 - WSIZE <= p
      ensures prev'[p % WSIZE] == Prior(w, p)
    {
      if p < s {
        RingIndex(p, s);
      }
    }
  }

  lemma SameIndex(g: bv13, h: bv13)
    requires g as int == h as int
    ensures g == h
  {
    assert (g as int) as bv13 == g;
    assert (h as int) as bv13 == h;
  }

  lemma RingIndex(p: nat, s: nat)
    requires p < s < p + WSIZE
    ensures p % WSIZE != s % WSIZE
  {
  }

  /** New input behind `cur + 1` keeps the chains. */
  lemma ReadKeeps(w: seq<byte>, w': seq<byte>, prev: seq<nat>, head: seq<nat>, cur: nat)
    requires Chains(w, prev, head, cur) && |w'| == |w|
    requires forall i :: 0 <= i < cur + 2 ==> w'[i] == w[i]
    ensures Chains(w', prev, head, cur)
  {
    hide Key, Last;
    forall k: nat, n: nat | n <= cur ensures Last(w', k, n) == Last(w, k, n) {
      SameLast(w, w', k, n);
    }
    forall p | 0 <= p < cur ensures Key(w', p) == Key(w, p) {
      SameHash(w, p, w', p);
    }
  }

  lemma {:induction false} SameLast(w: seq<byte>, w': seq<byte>, k: nat, n: nat)
    requires n + 2 <= |w| && n + 2 <= |w'| && forall i :: 0 <= i < n + 2 ==> w'[i] == w[i]
    ensures Last(w', k, n) == Last(w, k, n)
    decreases n
  {
    hide Key;
    if n <= 1 {
    } else {
      SameHash(w, n - 1, w', n - 1);
      SameLast(w, w', k, n - 1);
    }
  }

  lemma SameHash(w: seq<byte>, p: nat, w': seq<byte>, p': nat)
    requires p + 2 < |w| && p' + 2 < |w'|
    requires w[p] == w'[p'] && w[p + 1] == w'[p' + 1] && w[p + 2] == w'[p' + 2]
    ensures Key(w, p) == Key(w', p')
  {
  }

  function Slid(m: nat): nat { if m >= WSIZE then m - WSIZE else 0 }

  function SlidAll(t: seq<nat>): (r: seq<nat>)
    ensures |r| == |t| && forall i :: 0 <= i < |t| ==> r[i] == Slid(t[i])
  {
    seq(|t|, i requires 0 <= i < |t| => Slid(t[i]))
  }

  /** The window with its upper half copied to the lower. */
  function Moved(w: seq<byte>): (r: seq<byte>)
    requires |w| >= WINDOW_SIZE
    ensures |r| == |w| && forall i :: 0 <= i < WSIZE ==> r[i] == w[i + WSIZE]
  {
    w[WSIZE..WINDOW_SIZE] + w[WSIZE..]
  }

  /** Moving the upper half of the window down keeps the chains. */
  lemma SlideKeeps(w: seq<byte>, prev: seq<nat>, head: seq<nat>, cur: nat)
    requires Chains(w, prev, head, cur) && WSIZE <= cur && cur + 2 <= WINDOW_SIZE <= |w|
    ensures Chains(Moved(w), SlidAll(prev), SlidAll(head), cur - WSIZE)
  {
    hide Key, Moved, SlidAll, Last;
    var w', prev', head' := Moved(w), SlidAll(prev), SlidAll(head);
    forall p' | 0 <= p' < cur - WSIZE && cur - 2 * WSIZE <= p'
      ensures prev'[p' % WSIZE] == Prior(w', p')
    {
      var p := p' + WSIZE;
      assert p % WSIZE == p' % WSIZE;
      assert prev[p % WSIZE] == Prior(w, p);
      SameHash(w, p, w', p');
      LastSlides(w, Key(w, p), p);
    }
    forall h | 0 <= h < HASH_SIZE ensures head'[h] == Last(w', h, cur - WSIZE) {
      LastSlides(w, h, cur);
    }
  }

  lemma {:induction false} LastSlides(w: seq<byte>, k: nat, n: nat)
    requires WSIZE <= n && n + 2 <= WINDOW_SIZE <= |w|
    ensures Last(Moved(w), k, n - WSIZE) == Slid(Last(w, k, n))
    decreases n
  {
    hide Key, Moved;
    if n <= WSIZE + 1 {
    } else {
      SameHash(w, n - 1, Moved(w), n - 1 - WSIZE);
      LastSlides(w, k, n - 1);
    }
  }
}
