/** The LZO1X byte code: what one instruction means, and what a whole stream decodes to.

    An opcode below 16 means three different things, depending on what came before it, so the
    decoder carries a `Mode`. A match instruction carries in the low two bits of its last but
    one byte the number (0..3) of literals that follow it; here these literals are part of the
    match instruction. */
module Lzo1xFormat {
  import opened Basics
  import opened LzCopy

  /** What came before the next opcode. `Done` is the state behind the end-of-stream marker. */
  datatype Mode = Start | AfterMatch | AfterShort | AfterRun | Done

  datatype State = State(mode: Mode, out: seq<octet>)

  /** A match instruction: its size in bytes (without literals), distance and length. */
  datatype Header = Header(size: nat, dist: nat, len: nat) | Marker(size: nat)

  const INIT := State(Start, [])

  /** A length extension at index `k`: zero bytes count 255 each, the first other byte ends it.
      Returns the value and the index behind it. */
  function Extension(b: seq<octet>, k: nat): (r: Option<(nat, nat)>)
    ensures r.Some? ==> k < r.value.1 <= |b| && r.value.0 >= 1
    decreases |b| - k
  {
    if k >= |b| then None
    else if b[k] != 0 then Some((b[k], k + 1))
    else
      var r := Extension(b, k + 1);
      if r.None? then None else Some((r.value.0 + 255, r.value.1))
  }

  /** A length field: `t` itself, or `base` plus an extension at index 1 when `t` is zero. */
  function Length(b: seq<octet>, t: nat, base: nat): (r: Option<(nat, nat)>)
    ensures r.Some? ==> 1 <= r.value.1 && (r.value.0 <= base ==> r.value.1 == 1)
    ensures r.Some? && |b| > 0 ==> r.value.1 <= |b|
  {
    if t != 0 then Some((t, 1))
    else
      var e := Extension(b, 1);
      if e.None? then None else Some((base + e.value.0, e.value.1))
  }

  /** The match instruction at the front of `b`, whose first byte is not a literal run. */
  function ParseMatch(b: seq<octet>, mode: Mode): (r: Option<Header>)
    ensures r.Some? ==> 2 <= r.value.size <= |b|
    ensures r.Some? && r.value.Header? ==> r.value.dist >= 1 && r.value.len >= 2
    ensures r.Some? && r.value.size == 2 ==> b[0] < 16 || b[0] >= 64
  {
    if |b| < 2 then None
    else
      var t: int, u: int := b[0], b[1];
      if t >= 64 then Some(Header(2, 1 + t / 4 % 8 + u * 8, t / 32 + 1))
      else if t >= 32 then ParseLong(b, t % 32, 31, 1)
      else if t >= 16 then
        var h := ParseLong(b, t % 8, 7, t / 8 % 2 * 0x4000);
        if h.None? then None
        else if h.value.dist == 0 then Some(Marker(h.value.size))
        else Some(h.value.(dist := h.value.dist + 0x4000))
      else if mode == AfterRun then Some(Header(2, 1 + 0x800 + t / 4 + u * 4, 3))
      else Some(Header(2, 1 + t / 4 + u * 4, 2))
  }

  /** A match with a length field that may be extended and a two-byte distance. */
  function ParseLong(b: seq<octet>, t: nat, base: nat, offset: nat): (r: Option<Header>)
    ensures r.Some? ==> r.value.Header? && 3 <= r.value.size <= |b|
    ensures r.Some? ==> offset <= r.value.dist && (base > 0 ==> r.value.len >= 2)
  {
    var l := Length(b, t, base);
    if l.None? || l.value.1 + 2 > |b| then None
    else
      var k := l.value.1;
      var lo: int, hi: int := b[k], b[k + 1];
      Some(Header(k + 2, offset + lo / 4 + hi * 64, l.value.0 + 2))
  }

  /** Literals `b[k..k+n]` are appended and the mode becomes `mode`. */
  function Literals(b: seq<octet>, k: nat, n: nat, out: seq<octet>, mode: Mode): (r: Option<(nat, State)>)
    requires k + n > 0
    ensures r.Some? ==> 0 < r.value.0 <= |b| && out <= r.value.1.out
  {
    if k + n > |b| then None else Some((k + n, State(mode, out + b[k..k + n])))
  }

  predicate IsRun(b: seq<octet>, mode: Mode) {
    |b| > 0 && b[0] < 16 && (mode == AfterMatch || mode == Start)
  }

  /** One instruction: how many bytes it takes and the state behind it. */
  function Step(b: seq<octet>, s: State): (r: Option<(nat, State)>)
    ensures r.Some? ==> 0 < r.value.0 <= |b| && s.out <= r.value.1.out
  {
    if b == [] || s.mode == Done then None
    else if s.mode == Start && b[0] > 17 then
      var n := b[0] - 17;
      Literals(b, 1, n, s.out, if n < 4 then AfterShort else AfterRun)
    else if IsRun(b, s.mode) then
      var l := Length(b, b[0], 15);
      if l.None? then None else Literals(b, l.value.1, l.value.0 + 3, s.out, AfterRun)
    else
      var h := ParseMatch(b, s.mode);
      if h.None? then None
      else MatchStep(b, h.value, s.out)
  }

  /** The effect of the match instruction `h` at the front of `b`, with its literals. */
  function MatchStep(b: seq<octet>, h: Header, out: seq<octet>): (r: Option<(nat, State)>)
    requires 2 <= h.size <= |b|
    requires h.Header? ==> h.dist >= 1
    ensures r.Some? ==> 0 < r.value.0 <= |b| && out <= r.value.1.out
  {
    if h.Marker? then Some((h.size, State(Done, out)))
    else if h.dist > |out| then None
    else
      var nl := b[h.size - 2] % 4;
      Literals(b, h.size, nl, Copy(out, h.dist, h.len), if nl == 0 then AfterMatch else AfterShort)
  }

  /** All instructions of `b`, which must end exactly at the end of an instruction. */
  function Run(b: seq<octet>, s: State): (r: Option<State>)
    ensures r.Some? ==> s.out <= r.value.out
    decreases |b|
  {
    if b == [] then Some(s)
    else
      var p := Step(b, s);
      if p.None? then None else Run(b[p.value.0..], p.value.1)
  }

  /** A stream is valid when its last instruction is the end marker. */
  function Decode(b: seq<octet>): Option<seq<octet>> {
    var r := Run(b, INIT);
    if r.Some? && r.value.mode == Done then Some(r.value.out) else None
  }

  // ---- An instruction depends on its own bytes only

  lemma {:induction false} ExtensionLocal(b: seq<octet>, c: seq<octet>, k: nat)
    requires Extension(b, k).Some?
    requires Extension(b, k).value.1 <= |c|
    requires forall i :: 0 <= i < Extension(b, k).value.1 ==> c[i] == b[i]
    ensures Extension(c, k) == Extension(b, k)
    decreases |b| - k
  {
    if b[k] == 0 {
      ExtensionLocal(b, c, k + 1);
    }
  }

  lemma LengthLocal(b: seq<octet>, c: seq<octet>, t: nat, base: nat)
    requires Length(b, t, base).Some?
    requires Length(b, t, base).value.1 <= |c|
    requires forall i :: 0 <= i < Length(b, t, base).value.1 && i < |b| ==> c[i] == b[i]
    ensures Length(c, t, base) == Length(b, t, base)
  {
    if t == 0 {
      ExtensionLocal(b, c, 1);
    }
  }

  /** Only the low two bits of the last but one byte of a match are free. */
  lemma ParseMatchLocal(b: seq<octet>, c: seq<octet>, mode: Mode)
    requires ParseMatch(b, mode).Some?
    requires ParseMatch(b, mode).value.size <= |c|
    requires var z := ParseMatch(b, mode).value.size;
             forall i :: 0 <= i < z ==> c[i] / 4 == b[i] / 4 && (i != z - 2 ==> c[i] == b[i])
    ensures ParseMatch(c, mode) == ParseMatch(b, mode)
  {
    hide Length, Extension, ParseLong;
    var t: int := b[0];
    if 32 <= t < 64 {
      ParseLongLocal(b, c, t % 32, 31, 1);
    } else if 16 <= t < 32 {
      ParseLongLocal(b, c, t % 8, 7, t / 8 % 2 * 0x4000);
    }
  }

  lemma ParseLongLocal(b: seq<octet>, c: seq<octet>, t: nat, base: nat, offset: nat)
    requires ParseLong(b, t, base, offset).Some?
    requires ParseLong(b, t, base, offset).value.size <= |c|
    requires var z := ParseLong(b, t, base, offset).value.size;
             forall i :: 0 <= i < z ==> c[i] / 4 == b[i] / 4 && (i != z - 2 ==> c[i] == b[i])
    ensures ParseLong(c, t, base, offset) == ParseLong(b, t, base, offset)
  {
    LengthLocal(b, c, t, base);
  }

  lemma StepLocal(b: seq<octet>, c: seq<octet>, s: State)
    requires Step(b, s).Some?
    requires Step(b, s).value.0 <= |c|
    requires forall i :: 0 <= i < Step(b, s).value.0 ==> c[i] == b[i]
    ensures Step(c, s) == Step(b, s)
  {
    hide Extension, ParseMatch, Copy;
    var n := Step(b, s).value.0;
    assert forall i, j :: 0 <= i <= j <= n ==> c[i..j] == b[i..j];
    if s.mode == Start && b[0] > 17 {
    } else if IsRun(b, s.mode) {
      LengthLocal(b, c, b[0], 15);
    } else {
      ParseMatchLocal(b, c, s.mode);
    }
  }

  lemma {:induction false} RunAppend(a: seq<octet>, c: seq<octet>, s: State)
    requires Run(a, s).Some?
    ensures Run(a + c, s) == Run(c, Run(a, s).value)
    decreases |a|
  {
    hide Step;
    if a == [] {
      assert a + c == c;
    } else {
      var p := Step(a, s).value;
      StepLocal(a, a + c, s);
      assert (a + c)[p.0..] == a[p.0..] + c;
      RunAppend(a[p.0..], c, p.1);
    }
  }

  /** Reading one more instruction at position `p` of a buffer. */
  lemma RunExtend(b: seq<octet>, p: nat, q: nat, s: State, s': State)
    requires p < q <= |b|
    requires Run(b[..p], INIT) == Some(s)
    requires Step(b[p..q], s) == Some((q - p, s'))
    ensures Run(b[..q], INIT) == Some(s')
  {
    hide Step;
    assert b[..q] == b[..p] + b[p..q];
    RunAppend(b[..p], b[p..q], INIT);
    assert b[p..q][q - p..] == [];
  }
}
