/** A decoder for the deflate format, following RFC 1951, on bit strings in the order in which
    section 3.1.1 packs them into bytes. */
module Rfc1951 {
  import opened Basics
  import opened BitString
  import opened Canonical
  import opened LzCopy

  datatype Token = Literal(b: byte) | Match(len: nat, dist: nat)

  const END_BLOCK := 256
  const LITERALS := 256
  const L_CODES := 286
  const D_CODES := 30
  const BL_CODES := 19

  // The tables of section 3.2.5.
  const LENGTH_BASE: seq<nat> := [3, 4, 5, 6, 7, 8, 9, 10, 11, 13, 15, 17, 19, 23, 27, 31, 35, 43, 51, 59, 67, 83,
                                  99, 115, 131, 163, 195, 227, 258]
  const LENGTH_EXTRA: seq<nat> := [0, 0, 0, 0, 0, 0, 0, 0, 1, 1, 1, 1, 2, 2, 2, 2, 3, 3, 3, 3, 4, 4,
                                   4, 4, 5, 5, 5, 5, 0]
  const DIST_BASE: seq<nat> := [1, 2, 3, 4, 5, 7, 9, 13, 17, 25, 33, 49, 65, 97, 129, 193, 257, 385, 513, 769, 1025,
                                1537, 2049, 3073, 4097, 6145, 8193, 12289, 16385, 24577]
  const DIST_EXTRA: seq<nat> := [0, 0, 0, 0, 1, 1, 2, 2, 3, 3, 4, 4, 5, 5, 6, 6, 7, 7, 8, 8, 9, 9,
                                 10, 10, 11, 11, 12, 12, 13, 13]

  /** The order of the code length code lengths, section 3.2.7. */
  const BL_ORDER: seq<nat> := [16, 17, 18, 0, 8, 7, 9, 6, 10, 5, 11, 4, 12, 3, 13, 2, 14, 1, 15]

  /** A number of `n` bits. */
  function ReadNumber(bits: seq<bool>, n: nat): (r: Option<(nat, seq<bool>)>)
    ensures r.Some? ==> |r.value.1| == |bits| - n && r.value.0 < Pow2(n)
  {
    if |bits| < n then None else Some((Value(bits[..n]), bits[n..]))
  }

  // ---- Compressed data, section 3.2.5

  /** A symbol of `extra` bits on top of `base`. */
  function ReadExtra(bits: seq<bool>, base: nat, extra: nat): (r: Option<(nat, seq<bool>)>)
    ensures r.Some? ==> |r.value.1| <= |bits|
  {
    var e := ReadNumber(bits, extra);
    if e.None? then None else Some((base + e.value.0, e.value.1))
  }

  function ReadDistance(dl: seq<nat>, bits: seq<bool>): (r: Option<(nat, seq<bool>)>)
    ensures r.Some? ==> |r.value.1| < |bits|
  {
    var d := DecodeSymbol(dl, bits);
    if d.None? || d.value.0 >= D_CODES then None
    else ReadExtra(d.value.1, DIST_BASE[d.value.0], DIST_EXTRA[d.value.0])
  }

  /** The next token, or no token at the end of the block. */
  function ReadToken(ll: seq<nat>, dl: seq<nat>, bits: seq<bool>): (r: Option<(Option<Token>, seq<bool>)>)
    ensures r.Some? ==> |r.value.1| < |bits|
  {
    var s := DecodeSymbol(ll, bits);
    if s.None? then None
    else
      var (n, rest) := s.value;
      if n < LITERALS then Some((Some(Literal(n as bv8)), rest))
      else if n == END_BLOCK then Some((None, rest))
      else if n >= L_CODES then None
      else
        var l := ReadExtra(rest, LENGTH_BASE[n - 257], LENGTH_EXTRA[n - 257]);
        if l.None? then None
        else
          var d := ReadDistance(dl, l.value.1);
          if d.None? then None else Some((Some(Match(l.value.0, d.value.0)), d.value.1))
  }

  /** All tokens up to the end of the block. */
  function ReadTokens(ll: seq<nat>, dl: seq<nat>, bits: seq<bool>): (r: Option<(seq<Token>, seq<bool>)>)
    ensures r.Some? ==> |r.value.1| < |bits|
    decreases |bits|
  {
    var t := ReadToken(ll, dl, bits);
    if t.None? then None
    else if t.value.0.None? then Some(([], t.value.1))
    else
      var r := ReadTokens(ll, dl, t.value.1);
      if r.None? then None else Some(([t.value.0.value] + r.value.0, r.value.1))
  }

  function Apply(out: seq<byte>, t: Token): (r: Option<seq<byte>>)
    ensures r.Some? ==> out <= r.value
  {
    match t
    case Literal(b) => Some(out + [b])
    case Match(len, dist) => if 1 <= dist <= |out| then Some(Copy(out, dist, len)) else None
  }

  /** What the tokens append to `out`. */
  function Expand(out: seq<byte>, ts: seq<Token>): (r: Option<seq<byte>>)
    ensures r.Some? ==> out <= r.value
    decreases |ts|
  {
    if ts == [] then Some(out)
    else
      var r := Apply(out, ts[0]);
      if r.None? then None else Expand(r.value, ts[1..])
  }

  // ---- Code lengths, section 3.2.7

  /** One symbol of the code length alphabet with the value of its extra bits. */
  datatype ClSymbol = ClSymbol(sym: nat, extra: nat)

  function ClExtra(sym: nat): nat {
    if sym == 16 then 2 else if sym == 17 then 3 else if sym == 18 then 7 else 0
  }

  function Repeat(x: nat, n: nat): (r: seq<nat>)
    ensures |r| == n && forall i :: 0 <= i < n ==> r[i] == x
  {
    seq(n, _ => x)
  }

  /** The lengths after one symbol. */
  function ApplyCl(acc: seq<nat>, s: ClSymbol): (r: Option<seq<nat>>)
    ensures r.Some? ==> acc < r.value
  {
    if s.sym < 16 then Some(acc + [s.sym])
    else if s.sym == 16 then if acc == [] then None else Some(acc + Repeat(acc[|acc| - 1], 3 + s.extra))
    else if s.sym == 17 then Some(acc + Repeat(0, 3 + s.extra))
    else if s.sym == 18 then Some(acc + Repeat(0, 11 + s.extra))
    else None
  }

  /** Exactly `total` code lengths are read. */
  function ReadLengths(cl: seq<nat>, bits: seq<bool>, total: nat, acc: seq<nat>): (r: Option<(seq<nat>, seq<bool>)>)
    ensures r.Some? ==> |r.value.0| == total && |r.value.1| <= |bits|
    decreases |bits|
  {
    if |acc| == total then Some((acc, bits))
    else if |acc| > total then None
    else
      var s := DecodeSymbol(cl, bits);
      if s.None? then None
      else
        var e := ReadNumber(s.value.1, ClExtra(s.value.0));
        if e.None? then None
        else
          var a := ApplyCl(acc, ClSymbol(s.value.0, e.value.0));
          if a.None? then None else ReadLengths(cl, e.value.1, total, a.value)
  }

  /** `n` numbers of three bits. */
  function ReadTriples(bits: seq<bool>, n: nat): (r: Option<(seq<nat>, seq<bool>)>)
    ensures r.Some? ==> |r.value.0| == n && |r.value.1| <= |bits|
    decreases n
  {
    if n == 0 then Some(([], bits))
    else
      var x := ReadNumber(bits, 3);
      if x.None? then None
      else
        var r := ReadTriples(x.value.1, n - 1);
        if r.None? then None else Some(([x.value.0] + r.value.0, r.value.1))
  }

  /** The lengths of the code length code, sent in the order BL_ORDER. */
  function Unordered(sent: seq<nat>): (r: seq<nat>)
    ensures |r| == BL_CODES
  {
    seq(BL_CODES, (s: nat) => SentLength(sent, s, 0))
  }

  function SentLength(sent: seq<nat>, s: nat, rank: nat): nat
    decreases BL_CODES - rank
  {
    if rank >= BL_CODES || rank >= |sent| then 0
    else if BL_ORDER[rank] == s then sent[rank]
    else SentLength(sent, s, rank + 1)
  }

  /** The two codes of a dynamic block. */
  function ReadTrees(bits: seq<bool>): (r: Option<(seq<nat>, seq<nat>, seq<bool>)>)
    ensures r.Some? ==> |r.value.2| <= |bits|
  {
    if |bits| < 14 then None
    else
      var hlit, hdist, hclen := Value(bits[..5]) + 257, Value(bits[5..10]) + 1, Value(bits[10..14]) + 4;
      var c := ReadTriples(bits[14..], hclen);
      if c.None? then None
      else
        var l := ReadLengths(Unordered(c.value.0), c.value.1, hlit + hdist, []);
        if l.None? then None else Some((l.value.0[..hlit], l.value.0[hlit..], l.value.1))
  }

  // ---- Blocks, sections 3.2.3 to 3.2.6

  function FixedLengths(): (r: seq<nat>)
    ensures |r| == 288
  {
    seq(288, n => if n <= 143 then 8 else if n <= 255 then 9 else if n <= 279 then 7 else 8)
  }

  function FixedDistances(): (r: seq<nat>)
    ensures |r| == D_CODES
  {
    Repeat(5, D_CODES)
  }

  /** `n` bytes on a byte boundary. */
  function ReadBytes(bits: seq<bool>, n: nat): (r: Option<(seq<byte>, seq<bool>)>)
    ensures r.Some? ==> |r.value.1| <= |bits|
    decreases n
  {
    if n == 0 then Some(([], bits))
    else if |bits| < 8 then None
    else
      assert Pow2(8) == 256;
      var b := Value(bits[..8]) as bv8;
      var r := ReadBytes(bits[8..], n - 1);
      if r.None? then None else Some(([b] + r.value.0, r.value.1))
  }

  /** A stored block behind its three header bits; `pos` is the bit position in the stream. */
  function ReadStored(bits: seq<bool>, pos: nat): (r: Option<(seq<byte>, seq<bool>)>)
    ensures r.Some? ==> |r.value.1| <= |bits|
  {
    var pad := (8 - pos % 8) % 8;
    if |bits| < pad + 32 then None
    else
      var len, nlen := Value(bits[pad..pad + 16]), Value(bits[pad + 16..pad + 32]);
      if len + nlen != 0xffff then None else ReadBytes(bits[pad + 32..], len)
  }

  function ReadCompressed(ll: seq<nat>, dl: seq<nat>, bits: seq<bool>, out: seq<byte>): (r: Option<(seq<byte>, seq<bool>)>)
    ensures r.Some? ==> |r.value.1| <= |bits|
  {
    var t := ReadTokens(ll, dl, bits);
    if t.None? then None
    else
      var o := Expand(out, t.value.0);
      if o.None? then None else Some((o.value, t.value.1))
  }

  /** One block: whether it is the last one, the output behind it, and the remaining bits. */
  function ReadBlock(bits: seq<bool>, pos: nat, out: seq<byte>): (r: Option<(bool, seq<byte>, seq<bool>)>)
    ensures r.Some? ==> |r.value.2| < |bits|
  {
    if |bits| < 3 then None
    else
      var kind, rest := Value(bits[1..3]), bits[3..];
      if kind == 0 then
        var s := ReadStored(rest, pos + 3);
        if s.None? then None else Some((bits[0], out + s.value.0, s.value.1))
      else if kind == 1 then
        var c := ReadCompressed(FixedLengths(), FixedDistances(), rest, out);
        if c.None? then None else Some((bits[0], c.value.0, c.value.1))
      else if kind == 2 then
        var t := ReadTrees(rest);
        if t.None? then None
        else
          var c := ReadCompressed(t.value.0, t.value.1, t.value.2, out);
          if c.None? then None else Some((bits[0], c.value.0, c.value.1))
      else None
  }

  /** All blocks up to the last one. */
  function InflateFrom(bits: seq<bool>, pos: nat, out: seq<byte>): Option<(seq<byte>, seq<bool>)>
    decreases |bits|
  {
    var b := ReadBlock(bits, pos, out);
    if b.None? then None
    else if b.value.0 then Some((b.value.1, b.value.2))
    else InflateFrom(b.value.2, pos + (|bits| - |b.value.2|), b.value.1)
  }

  /** The bytes that a deflate stream stands for; bits behind the last block are left over. */
  function Inflate(bits: seq<bool>): Option<seq<byte>> {
    var r := InflateFrom(bits, 0, []);
    if r.None? then None else Some(r.value.0)
  }
}
