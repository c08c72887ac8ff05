/** Lazy matching, said of the input: which strings a search visits, what it finds, and which tokens follow. */
module GzipLazy {
  import opened Basics
  import opened Rfc1951
  import W = GzipWindow
  import opened GzipMatcher

  const MAX_LAZY_MATCH := 258

  /** A search for the string at stream position `at`: the window starts at `base`, the bytes up to `end` are known, a match
      must be longer than `prev`; it found `len` bytes, those from `from` on. */
  datatype Look = Look(base: nat, at: nat, end: nat, prev: nat, len: nat, from: int)

  /** Nothing longer than `prev` is among the strings visited, or `len` is the longest match, from the first string that has
      it unless the input ends there; three bytes do not count if they are too far away. */
  ghost predicate Finds(x: seq<byte>, v: seq<nat>, s: nat, prev: nat, len: nat, start: int) {
    || (Covered(x, v, s, prev) && len <= prev)
    || exists m: nat :: prev < m <= W.MAX_MATCH && s + m <= |x| && Covered(x, v, s, m) && OneOf(x, v, s, start, m)
                        && (s + m < |x| ==> FirstBest(x, v, s, start, m))
                        && len == if m == W.MIN_MATCH && s - start > W.TOO_FAR then W.MIN_MATCH - 1 else m
  }

  ghost predicate OneOf(x: seq<byte>, v: seq<nat>, s: nat, start: int, m: nat) {
    exists i :: 0 <= i < |v| && v[i] == start && v[i] + m <= |x| && s + m <= |x| && Agrees(x, v[i], s, m)
  }

  /** What a search finds: the strings visited are those with the same hash key, one after the other, within MAX_DIST. */
  ghost predicate Right(input: seq<byte>, l: Look) {
    && l.base <= l.at < l.end <= |input| && l.prev >= W.MIN_MATCH - 1
    && (var x, s := input[l.base..l.end], l.at - l.base;
        if s + W.MIN_MATCH > |x| then l.len < W.MIN_MATCH
        else
          var q := W.Prior(x, s);
          if q == 0 || l.prev >= MAX_LAZY_MATCH || s - q > W.MAX_DIST then l.len == W.MIN_MATCH - 1
          else Finds(x, Visits(x, q, Limit(s), ChainLength(l.prev)), s, l.prev, l.len, l.from - l.base))
  }

  /** Enough of the input was known, or all of it. */
  ghost predicate Ahead(l: Look, eofile: bool, pos: nat) {
    l.end <= pos && (l.end - l.at >= W.MIN_LOOKAHEAD || (eofile && l.end == pos))
  }

  // ---- From searches to tokens

  /** The next string to search for, whether the byte before it is pending, and the match found there. */
  datatype Lazy = Lazy(at: nat, pending: bool, len: nat, from: int)

  const START := Lazy(0, false, W.MIN_MATCH - 1, 0)

  /** The search fits the state. */
  ghost predicate Fits(input: seq<byte>, st: Lazy, l: Look) {
    l.at == st.at < |input| && l.prev == st.len && (st.pending ==> st.at >= 1) && (st.len >= W.MIN_MATCH ==> st.pending)
  }

  /** A match that the next one does not beat is taken; else the byte is a literal, if one is pending. */
  function Emits(input: seq<byte>, st: Lazy, l: Look): seq<Token>
    requires 0 < st.at <= |input| || !st.pending
  {
    if st.len >= W.MIN_MATCH && l.len <= st.len then [Match(st.len, if st.at - 1 > st.from then st.at - 1 - st.from else 0)]
    else if st.pending then [Literal(input[st.at - 1])]
    else []
  }

  function Next(st: Lazy, l: Look): Lazy {
    if st.len >= W.MIN_MATCH && l.len <= st.len then Lazy(st.at + st.len - 1, false, W.MIN_MATCH - 1, l.from)
    else Lazy(st.at + 1, true, l.len, l.from)
  }

  /** The state behind all searches. */
  ghost function Behind(looks: seq<Look>): Lazy {
    if looks == [] then START else Next(Behind(looks[..|looks| - 1]), looks[|looks| - 1])
  }

  ghost predicate Run(input: seq<byte>, looks: seq<Look>) {
    looks == [] || (Run(input, looks[..|looks| - 1]) && Fits(input, Behind(looks[..|looks| - 1]), looks[|looks| - 1])
                    && Right(input, looks[|looks| - 1]))
  }

  ghost function Tokens(input: seq<byte>, looks: seq<Look>): seq<Token>
    requires Run(input, looks)
  {
    if looks == [] then []
    else Tokens(input, looks[..|looks| - 1]) + Emits(input, Behind(looks[..|looks| - 1]), looks[|looks| - 1])
  }

  /** Behind the last search a pending byte is a literal. */
  ghost function AllOf(input: seq<byte>, looks: seq<Look>): seq<Token>
    requires Run(input, looks)
  {
    var st := Behind(looks);
    Tokens(input, looks) + if st.pending && 0 < st.at <= |input| then [Literal(input[st.at - 1])] else []
  }

  lemma RunMore(input: seq<byte>, looks: seq<Look>, l: Look)
    requires Run(input, looks) && Fits(input, Behind(looks), l) && Right(input, l)
    ensures Run(input, looks + [l]) && Behind(looks + [l]) == Next(Behind(looks), l)
    ensures Tokens(input, looks + [l]) == Tokens(input, looks) + Emits(input, Behind(looks), l)
  {
    hide Right;
    assert (looks + [l])[..|looks|] == looks;
  }

  // ---- Why a token is what it is

  /** A byte is pending exactly behind a search for its string that took no match. */
  lemma PendingIs(input: seq<byte>, looks: seq<Look>)
    requires Run(input, looks) && Behind(looks).pending
    ensures looks != []
    ensures var l, st := looks[|looks| - 1], Behind(looks); st.at == l.at + 1 && st.len == l.len && st.from == l.from
  {
    hide Right;
  }

  /** A literal stands only where the search found no match that counts, or where the next search found a longer one. */
  lemma WhyLiteral(input: seq<byte>, looks: seq<Look>, l: Look)
    requires Run(input, looks + [l]) && Run(input, looks) && Fits(input, Behind(looks), l)
    requires |Emits(input, Behind(looks), l)| == 1 && Emits(input, Behind(looks), l)[0].Literal?
    ensures looks != [] && looks[|looks| - 1].at == l.at - 1 && Emits(input, Behind(looks), l) == [Literal(input[l.at - 1])]
    ensures looks[|looks| - 1].len < W.MIN_MATCH || l.len > looks[|looks| - 1].len
  {
    hide Right, Run, Behind;
    PendingIs(input, looks);
  }

  /** A match is the one that the search found, and the next search found no longer one. */
  lemma WhyMatch(input: seq<byte>, looks: seq<Look>, l: Look)
    requires Run(input, looks + [l]) && Run(input, looks) && Fits(input, Behind(looks), l)
    requires |Emits(input, Behind(looks), l)| == 1 && Emits(input, Behind(looks), l)[0].Match?
    ensures looks != []
    ensures var p, t := looks[|looks| - 1], Emits(input, Behind(looks), l)[0];
            && p.at == l.at - 1 && t.len == p.len >= W.MIN_MATCH && (p.at > p.from ==> t.dist == p.at - p.from) && l.len <= p.len
  {
    hide Right, Run, Behind;
    PendingIs(input, looks);
  }

  /** The last byte of the input is a literal because fewer than three bytes are left. */
  lemma WhyLast(input: seq<byte>, looks: seq<Look>, n: nat)
    requires Run(input, looks) && looks != [] && Behind(looks).pending && Behind(looks).at == n
    requires Ahead(looks[|looks| - 1], true, n)
    ensures looks[|looks| - 1].len < W.MIN_MATCH
  {
    hide Finds, Visits, W.Prior;
    PendingIs(input, looks);
  }

  /** If a search finds no match that counts, no string that it visits agrees on more than the three bytes that are too far
      away. */
  lemma NoneCounts(input: seq<byte>, l: Look)
    requires Right(input, l) && l.len < W.MIN_MATCH && l.prev == W.MIN_MATCH - 1 && l.at + W.MIN_MATCH <= l.end
    ensures var x, s := input[l.base..l.end], l.at - l.base;
            var q := W.Prior(x, s);
            || q == 0 || s - q > W.MAX_DIST
            || (var v := Visits(x, q, Limit(s), ChainLength(l.prev));
                || Covered(x, v, s, W.MIN_MATCH - 1)
                || (Covered(x, v, s, W.MIN_MATCH) && s - (l.from - l.base) > W.TOO_FAR && FirstOrLast(x, v, s, l.from - l.base)))
  {
    hide Visits, W.Prior, Covered, FirstBest, OneOf;
  }

  ghost predicate FirstOrLast(x: seq<byte>, v: seq<nat>, s: nat, start: int) {
    OneOf(x, v, s, start, W.MIN_MATCH) && (s + W.MIN_MATCH < |x| ==> FirstBest(x, v, s, start, W.MIN_MATCH))
  }

  // ---- What a search in the window says about the input

  lemma SamePrior(w: seq<byte>, x: seq<byte>, p: nat)
    requires |x| <= |w| && x == w[..|x|] && p + 2 < |x|
    ensures W.Prior(w, p) == W.Prior(x, p)
  {
    hide W.Key, W.Last;
    W.SameHash(w, p, x, p);
    W.SameLast(w, x, W.Key(w, p), p);
  }

  lemma {:induction false} SameVisits(w: seq<byte>, x: seq<byte>, c: nat, limit: nat, n: nat)
    requires |x| <= |w| && x == w[..|x|] && c + 2 < |x|
    ensures Visits(w, c, limit, n) == Visits(x, c, limit, n)
    decreases n
  {
    hide W.Prior, Visits;
    SamePrior(w, x, c);
    var q := W.Prior(x, c);
    var a, b := Visits(w, c, limit, n), Visits(x, c, limit, n);
    VisitsFirst(w, c, limit, n);
    VisitsFirst(x, c, limit, n);
    VisitsNext(w, c, limit, n);
    VisitsNext(x, c, limit, n);
    if n <= 1 || q <= limit {
    } else {
      SameVisits(w, x, q, limit, n - 1);
    }
    assert a == [a[0]] + a[1..] && b == [b[0]] + b[1..];
  }

  lemma FrontAgrees(w: seq<byte>, x: seq<byte>, p: nat, q: nat, n: nat)
    requires |x| <= |w| && x == w[..|x|] && p + n <= |x| && q + n <= |x|
    ensures Agrees(x, p, q, n) <==> Agrees(w, p, q, n)
  {
    assert x[p..p + n] == w[p..p + n] && x[q..q + n] == w[q..q + n];
  }

  lemma FrontCovered(w: seq<byte>, x: seq<byte>, v: seq<nat>, s: nat, m: nat)
    requires |x| <= |w| && x == w[..|x|] && Covered(w, v, s, m)
    ensures Covered(x, v, s, m)
  {
    hide Agrees;
    forall j | 0 <= j < |v| ensures NoLonger(x, v[j], s, m) {
      assert NoLonger(w, v[j], s, m);
      if v[j] + m < |x| && s + m < |x| {
        FrontAgrees(w, x, v[j], s, m + 1);
      }
    }
  }

  lemma CoveredAtEnd(x: seq<byte>, v: seq<nat>, s: nat, m: nat)
    requires s + m >= |x|
    ensures Covered(x, v, s, m)
  {
  }

  /** The best match in the window, cut to the bytes that are known. */
  lemma FindsInFront(w: seq<byte>, x: seq<byte>, v: seq<nat>, s: nat, prev: nat, best: nat, start: int)
    requires |x| <= |w| && x == w[..|x|] && s < |x| && 2 <= prev <= best <= W.MAX_MATCH && Covered(w, v, s, best)
    requires (forall j :: 0 <= j < |v| ==> v[j] < s) && (best > prev ==> FirstBest(w, v, s, start, best))
    ensures var n := if best > |x| - s then |x| - s else best;
            Finds(x, v, s, prev, if n == W.MIN_MATCH && s - start > W.TOO_FAR then n - 1 else n, start)
  {
    hide Agrees, NoLonger, Covered;
    var n := if best > |x| - s then |x| - s else best;
    if best == prev || n <= prev {
      if n <= prev && n < best {
        CoveredAtEnd(x, v, s, prev);
      } else {
        FrontCovered(w, x, v, s, prev);
      }
    } else {
      if n < best {
        CoveredAtEnd(x, v, s, n);
      } else {
        FrontCovered(w, x, v, s, n);
      }
      FirstInFront(w, x, v, s, best, n, start);
    }
  }

  lemma FirstInFront(w: seq<byte>, x: seq<byte>, v: seq<nat>, s: nat, best: nat, n: nat, start: int)
    requires |x| <= |w| && x == w[..|x|] && n <= best && s + n <= |x| && FirstBest(w, v, s, start, best)
    requires forall j :: 0 <= j < |v| ==> v[j] < s
    ensures OneOf(x, v, s, start, n) && (n == best ==> FirstBest(x, v, s, start, n))
  {
    hide Agrees, Covered;
    var i :| 0 <= i < |v| && v[i] == start && start + best <= |w| && s + best <= |w| && Agrees(w, v[i], s, best)
             && Covered(w, v[..i], s, best - 1);
    AgreesFront(w, v[i], s, best, n);
    FrontAgrees(w, x, v[i], s, n);
    if n == best {
      FrontCovered(w, x, v[..i], s, n - 1);
    }
  }

  lemma RightBy(input: seq<byte>, l: Look, q: nat)
    requires l.base <= l.at < l.end <= |input| && 2 <= l.prev < MAX_LAZY_MATCH
    requires var x, s := input[l.base..l.end], l.at - l.base;
             if s + W.MIN_MATCH > |x| then l.len < W.MIN_MATCH
             else
               && q == W.Prior(x, s) && q != 0 && s - q <= W.MAX_DIST
               && Finds(x, Visits(x, q, Limit(s), ChainLength(l.prev)), s, l.prev, l.len, l.from - l.base)
    ensures Right(input, l)
  {
    hide W.Prior, Visits, Finds;
  }

  /** The search in the window is the search in the input. */
  lemma SearchIs(w: seq<byte>, end: nat, input: seq<byte>, base: nat, pos: nat, s: nat, prev: nat, best: nat, start: int, len: nat,
                 q: nat, v: seq<nat>)
    requires Holds(w, end, input, base, pos) && s < end && s + 2 < |w| && 2 <= prev < MAX_LAZY_MATCH
    requires q == W.Prior(w, s) && q != 0 && s - q <= W.MAX_DIST && prev <= best <= W.MAX_MATCH
    requires v == Visits(w, q, Limit(s), ChainLength(prev)) && Covered(w, v, s, best) && (best > prev ==> FirstBest(w, v, s, start, best))
    requires var n := if best > end - s then end - s else best;
             len == if n == W.MIN_MATCH && s - start > W.TOO_FAR then n - 1 else n
    ensures Right(input, Look(base, base + s, pos, prev, len, base + start))
  {
    hide W.Prior, Visits, Covered, FirstBest, Finds, Right;
    var x := input[base..pos];
    assert x == w[..end];
    if s + W.MIN_MATCH <= |x| {
      SamePrior(w, x, s);
      SameVisits(w, x, q, Limit(s), ChainLength(prev));
      BelowStart(w, q, s, ChainLength(prev));
      FindsInFront(w, x, v, s, prev, best, start);
    }
    RightBy(input, Look(base, base + s, pos, prev, len, base + start), q);
  }

  lemma BelowStart(w: seq<byte>, q: nat, s: nat, n: nat)
    requires 0 < q < s && s + 2 < |w| && n >= 1
    ensures forall j :: 0 <= j < |Visits(w, q, Limit(s), n)| ==> Visits(w, q, Limit(s), n)[j] < s
  {
    hide W.Prior;
    Descends(w, q, Limit(s), n);
  }

  lemma {:induction false} Descends(w: seq<byte>, c: nat, limit: nat, n: nat)
    requires c + 2 < |w|
    ensures forall j :: 0 <= j < |Visits(w, c, limit, n)| ==> Visits(w, c, limit, n)[j] <= c
    decreases n
  {
    hide W.Last, W.Key;
    var q := W.Prior(w, c);
    if n <= 1 || q <= limit {
    } else {
      Descends(w, q, limit, n - 1);
    }
  }

  /** Without a search. */
  lemma NoSearchIs(w: seq<byte>, end: nat, input: seq<byte>, base: nat, pos: nat, s: nat, prev: nat, start: int)
    requires Holds(w, end, input, base, pos) && s < end && s + 2 < |w| && 2 <= prev
    requires var q := W.Prior(w, s); q == 0 || prev >= MAX_LAZY_MATCH || s - q > W.MAX_DIST
    ensures Right(input, Look(base, base + s, pos, prev, W.MIN_MATCH - 1, base + start))
  {
    hide W.Prior, Visits, Finds;
    var x := input[base..pos];
    assert x == w[..end];
    if s + W.MIN_MATCH <= |x| {
      SamePrior(w, x, s);
    }
  }
}
