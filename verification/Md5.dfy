/** md5.c: hashing a message piece by piece. */
module Md5 {
  import opened Basics
  import opened Md5Spec

  // ---- Transform

  method FF(a: word, b: word, c: word, d: word, x: word, s: nat, ac: word, ghost i: nat, ghost block: seq<word>) returns (r: word)
    requires 0 <= i < 16 && |block| == 16 && x == block[Index(i)] && s == Shift(i) && ac == Sine(i)
    ensures r == Register(i, block, a, b, c, d)
  {
    hide F, G, H, I, Rotate, Add, Sine, Index, Shift;
    r := Add(a, Add(Add(F(b, c, d), x), ac));
    r := Rotate(r, s);
    r := Add(r, b);
  }

  method GG(a: word, b: word, c: word, d: word, x: word, s: nat, ac: word, ghost i: nat, ghost block: seq<word>) returns (r: word)
    requires 16 <= i < 32 && |block| == 16 && x == block[Index(i)] && s == Shift(i) && ac == Sine(i)
    ensures r == Register(i, block, a, b, c, d)
  {
    hide F, G, H, I, Rotate, Add, Sine, Index, Shift;
    r := Add(a, Add(Add(G(b, c, d), x), ac));
    r := Rotate(r, s);
    r := Add(r, b);
  }

  method HH(a: word, b: word, c: word, d: word, x: word, s: nat, ac: word, ghost i: nat, ghost block: seq<word>) returns (r: word)
    requires 32 <= i < 48 && |block| == 16 && x == block[Index(i)] && s == Shift(i) && ac == Sine(i)
    ensures r == Register(i, block, a, b, c, d)
  {
    hide F, G, H, I, Rotate, Add, Sine, Index, Shift;
    r := Add(a, Add(Add(H(b, c, d), x), ac));
    r := Rotate(r, s);
    r := Add(r, b);
  }

  method II(a: word, b: word, c: word, d: word, x: word, s: nat, ac: word, ghost i: nat, ghost block: seq<word>) returns (r: word)
    requires 48 <= i < 64 && |block| == 16 && x == block[Index(i)] && s == Shift(i) && ac == Sine(i)
    ensures r == Register(i, block, a, b, c, d)
  {
    hide F, G, H, I, Rotate, Add, Sine, Index, Shift;
    r := Add(a, Add(Add(I(b, c, d), x), ac));
    r := Rotate(r, s);
    r := Add(r, b);
  }

  method FirstRoundStart(v: State, x: seq<word>, ghost start: State) returns (w: State)
    requires |x| == 16 && v == Steps(start, x, 0)
    ensures w == Steps(start, x, 8)
  {
    hide Steps, Register;
    var a, b, c, d := v.a, v.b, v.c, v.d;
    FourSteps(start, x, 0);
    a := FF(a, b, c, d, x[0], 7, 3614090360, 0, x);
    d := FF(d, a, b, c, x[1], 12, 3905402710, 1, x);
    c := FF(c, d, a, b, x[2], 17, 606105819, 2, x);
    b := FF(b, c, d, a, x[3], 22, 3250441966, 3, x);
    FourSteps(start, x, 4);
    a := FF(a, b, c, d, x[4], 7, 4118548399, 4, x);
    d := FF(d, a, b, c, x[5], 12, 1200080426, 5, x);
    c := FF(c, d, a, b, x[6], 17, 2821735955, 6, x);
    b := FF(b, c, d, a, x[7], 22, 4249261313, 7, x);
    w := State(a, b, c, d);
  }

  method FirstRoundEnd(v: State, x: seq<word>, ghost start: State) returns (w: State)
    requires |x| == 16 && v == Steps(start, x, 8)
    ensures w == Steps(start, x, 16)
  {
    hide Steps, Register;
    var a, b, c, d := v.a, v.b, v.c, v.d;
    FourSteps(start, x, 8);
    a := FF(a, b, c, d, x[8], 7, 1770035416, 8, x);
    d := FF(d, a, b, c, x[9], 12, 2336552879, 9, x);
    c := FF(c, d, a, b, x[10], 17, 4294925233, 10, x);
    b := FF(b, c, d, a, x[11], 22, 2304563134, 11, x);
    FourSteps(start, x, 12);
    a := FF(a, b, c, d, x[12], 7, 1804603682, 12, x);
    d := FF(d, a, b, c, x[13], 12, 4254626195, 13, x);
    c := FF(c, d, a, b, x[14], 17, 2792965006, 14, x);
    b := FF(b, c, d, a, x[15], 22, 1236535329, 15, x);
    w := State(a, b, c, d);
  }

  method SecondRoundStart(v: State, x: seq<word>, ghost start: State) returns (w: State)
    requires |x| == 16 && v == Steps(start, x, 16)
    ensures w == Steps(start, x, 24)
  {
    hide Steps, Register;
    var a, b, c, d := v.a, v.b, v.c, v.d;
    FourSteps(start, x, 16);
    a := GG(a, b, c, d, x[1], 5, 4129170786, 16, x);
    d := GG(d, a, b, c, x[6], 9, 3225465664, 17, x);
    c := GG(c, d, a, b, x[11], 14, 643717713, 18, x);
    b := GG(b, c, d, a, x[0], 20, 3921069994, 19, x);
    FourSteps(start, x, 20);
    a := GG(a, b, c, d, x[5], 5, 3593408605, 20, x);
    d := GG(d, a, b, c, x[10], 9, 38016083, 21, x);
    c := GG(c, d, a, b, x[15], 14, 3634488961, 22, x);
    b := GG(b, c, d, a, x[4], 20, 3889429448, 23, x);
    w := State(a, b, c, d);
  }

  method SecondRoundEnd(v: State, x: seq<word>, ghost start: State) returns (w: State)
    requires |x| == 16 && v == Steps(start, x, 24)
    ensures w == Steps(start, x, 32)
  {
    hide Steps, Register;
    var a, b, c, d := v.a, v.b, v.c, v.d;
    FourSteps(start, x, 24);
    a := GG(a, b, c, d, x[9], 5, 568446438, 24, x);
    d := GG(d, a, b, c, x[14], 9, 3275163606, 25, x);
    c := GG(c, d, a, b, x[3], 14, 4107603335, 26, x);
    b := GG(b, c, d, a, x[8], 20, 1163531501, 27, x);
    FourSteps(start, x, 28);
    a := GG(a, b, c, d, x[13], 5, 2850285829, 28, x);
    d := GG(d, a, b, c, x[2], 9, 4243563512, 29, x);
    c := GG(c, d, a, b, x[7], 14, 1735328473, 30, x);
    b := GG(b, c, d, a, x[12], 20, 2368359562, 31, x);
    w := State(a, b, c, d);
  }

  method ThirdRoundStart(v: State, x: seq<word>, ghost start: State) returns (w: State)
    requires |x| == 16 && v == Steps(start, x, 32)
    ensures w == Steps(start, x, 40)
  {
    hide Steps, Register;
    var a, b, c, d := v.a, v.b, v.c, v.d;
    FourSteps(start, x, 32);
    a := HH(a, b, c, d, x[5], 4, 4294588738, 32, x);
    d := HH(d, a, b, c, x[8], 11, 2272392833, 33, x);
    c := HH(c, d, a, b, x[11], 16, 1839030562, 34, x);
    b := HH(b, c, d, a, x[14], 23, 4259657740, 35, x);
    FourSteps(start, x, 36);
    a := HH(a, b, c, d, x[1], 4, 2763975236, 36, x);
    d := HH(d, a, b, c, x[4], 11, 1272893353, 37, x);
    c := HH(c, d, a, b, x[7], 16, 4139469664, 38, x);
    b := HH(b, c, d, a, x[10], 23, 3200236656, 39, x);
    w := State(a, b, c, d);
  }

  method ThirdRoundEnd(v: State, x: seq<word>, ghost start: State) returns (w: State)
    requires |x| == 16 && v == Steps(start, x, 40)
    ensures w == Steps(start, x, 48)
  {
    hide Steps, Register;
    var a, b, c, d := v.a, v.b, v.c, v.d;
    FourSteps(start, x, 40);
    a := HH(a, b, c, d, x[13], 4, 681279174, 40, x);
    d := HH(d, a, b, c, x[0], 11, 3936430074, 41, x);
    c := HH(c, d, a, b, x[3], 16, 3572445317, 42, x);
    b := HH(b, c, d, a, x[6], 23, 76029189, 43, x);
    FourSteps(start, x, 44);
    a := HH(a, b, c, d, x[9], 4, 3654602809, 44, x);
    d := HH(d, a, b, c, x[12], 11, 3873151461, 45, x);
    c := HH(c, d, a, b, x[15], 16, 530742520, 46, x);
    b := HH(b, c, d, a, x[2], 23, 3299628645, 47, x);
    w := State(a, b, c, d);
  }

  method FourthRoundStart(v: State, x: seq<word>, ghost start: State) returns (w: State)
    requires |x| == 16 && v == Steps(start, x, 48)
    ensures w == Steps(start, x, 56)
  {
    hide Steps, Register;
    var a, b, c, d := v.a, v.b, v.c, v.d;
    FourSteps(start, x, 48);
    a := II(a, b, c, d, x[0], 6, 4096336452, 48, x);
    d := II(d, a, b, c, x[7], 10, 1126891415, 49, x);
    c := II(c, d, a, b, x[14], 15, 2878612391, 50, x);
    b := II(b, c, d, a, x[5], 21, 4237533241, 51, x);
    FourSteps(start, x, 52);
    a := II(a, b, c, d, x[12], 6, 1700485571, 52, x);
    d := II(d, a, b, c, x[3], 10, 2399980690, 53, x);
    c := II(c, d, a, b, x[10], 15, 4293915773, 54, x);
    b := II(b, c, d, a, x[1], 21, 2240044497, 55, x);
    w := State(a, b, c, d);
  }

  method FourthRoundEnd(v: State, x: seq<word>, ghost start: State) returns (w: State)
    requires |x| == 16 && v == Steps(start, x, 56)
    ensures w == Steps(start, x, 64)
  {
    hide Steps, Register;
    var a, b, c, d := v.a, v.b, v.c, v.d;
    FourSteps(start, x, 56);
    a := II(a, b, c, d, x[8], 6, 1873313359, 56, x);
    d := II(d, a, b, c, x[15], 10, 4264355552, 57, x);
    c := II(c, d, a, b, x[6], 15, 2734768916, 58, x);
    b := II(b, c, d, a, x[13], 21, 1309151649, 59, x);
    FourSteps(start, x, 60);
    a := II(a, b, c, d, x[4], 6, 4149444226, 60, x);
    d := II(d, a, b, c, x[11], 10, 3174756917, 61, x);
    c := II(c, d, a, b, x[2], 15, 718787259, 62, x);
    b := II(b, c, d, a, x[9], 21, 3951481745, 63, x);
    w := State(a, b, c, d);
  }

  method Rounds(v: State, x: seq<word>) returns (w: State)
    requires |x| == 16
    ensures w == Steps(v, x, 64)
  {
    w := FirstRoundStart(v, x, v);
    hide Steps;
    w := FirstRoundEnd(w, x, v);
    w := SecondRoundStart(w, x, v);
    w := SecondRoundEnd(w, x, v);
    w := ThirdRoundStart(w, x, v);
    w := ThirdRoundEnd(w, x, v);
    w := FourthRoundStart(w, x, v);
    w := FourthRoundEnd(w, x, v);
  }

  /** Transform */
  method Transform(buf: State, x: seq<word>) returns (r: State)
    requires |x| == 16
    ensures r == Compress(buf, x)
  {
    hide Steps;
    var w := Rounds(buf, x);
    r := State(Add(buf.a, w.a), Add(buf.b, w.b), Add(buf.c, w.c), Add(buf.d, w.d));
  }

  // ---- The context

  ghost predicate Counted(i0: nat, i1: nat, n: nat) {
    i0 == 8 * n % TWO32 && i1 == 8 * n / TWO32 % TWO32
  }

  /** The number of bits after `k` more bytes. */
  lemma CountStep(i0: nat, i1: nat, n: nat, k: nat)
    requires Counted(i0, i1, n) && k < TWO32
    ensures var add := 8 * k % TWO32;
            var high := if (i0 + add) % TWO32 < i0 then (i1 + 1) % TWO32 else i1;
            Counted((i0 + add) % TWO32, (high + k / 0x2000_0000) % TWO32, n + k)
  {
    var a, b := 8 * n / TWO32, 8 * k / TWO32;
    var add := 8 * k % TWO32;
    assert b == k / 0x2000_0000;
    assert 8 * (n + k) == (a + b) * TWO32 + (i0 + add);
    var c := if i0 + add >= TWO32 then 1 else 0;
    assert 8 * (n + k) == (a + b + c) * TWO32 + (i0 + add - c * TWO32);
    QuotientIs(8 * (n + k), a + b + c, i0 + add - c * TWO32);
    assert i1 == a % TWO32;
    Mods(a, b, c);
    assert (i0 + add) % TWO32 < i0 <==> c == 1;
  }

  /** The counting of MD5Update. */
  method CountBits(i0: nat, i1: nat, len: nat, ghost n: nat) returns (j0: nat, j1: nat)
    requires Counted(i0, i1, n) && len < TWO32
    ensures Counted(j0, j1, n + len)
  {
    CountStep(i0, i1, n, len);
    hide Counted;
    j1 := i1;
    var add := 8 * len % TWO32;
    if (i0 + add) % TWO32 < i0 {
      j1 := (j1 + 1) % TWO32;
    }
    j0 := (i0 + add) % TWO32;
    j1 := (j1 + len / 0x2000_0000) % TWO32;
  }

  lemma QuotientIs(v: nat, q: nat, r: nat)
    requires v == q * TWO32 + r && r < TWO32
    ensures v / TWO32 == q && v % TWO32 == r
  {
  }

  lemma Mods(a: nat, b: nat, c: nat)
    requires c <= 1
    ensures ((if c == 1 then (a % TWO32 + 1) % TWO32 else a % TWO32) + b) % TWO32 == (a + b + c) % TWO32
  {
  }

  /** Where the next byte goes. */
  lemma Position(i0: nat, i1: nat, n: nat)
    requires Counted(i0, i1, n)
    ensures i0 / 8 % 64 == n % 64
  {
    var q := 8 * n / TWO32;
    assert 8 * n == q * TWO32 + i0;
    assert n == q * 0x2000_0000 + i0 / 8;
  }

  /** All whole blocks of `seen` are in `buf`, the bytes behind them in `input`. */
  ghost predicate Absorbed(buf: State, input: seq<byte>, seen: seq<byte>) {
    && |input| == 64
    && (var r := |seen| % 64;
        var full := seen[..|seen| - r];
        |full| % 64 == 0 && buf == Chain(INITIAL, BlockWords(full)) && input[..r] == seen[|seen| - r..])
  }

  /** The words of whole blocks. */
  ghost function BlockWords(b: seq<byte>): (r: seq<word>)
    requires |b| % 64 == 0
    ensures |r| % 16 == 0
  {
    FourInSixteen(|b|);
    Words(b)
  }

  lemma FourInSixteen(n: nat)
    requires n % 64 == 0
    ensures n % 4 == 0 && n / 4 % 16 == 0
  {
    var q := n / 64;
    assert n == 4 * (16 * q);
    assert n / 4 == 16 * q;
  }

  lemma NothingAbsorbed(input: seq<byte>)
    requires |input| == 64
    ensures Absorbed(INITIAL, input, [])
  {
    hide Compress, Word;
    assert Words([]) == [];
  }

  /** One more byte, which does not fill the block. */
  lemma ByteAbsorbed(buf: State, input: seq<byte>, seen: seq<byte>, b: byte)
    requires Absorbed(buf, input, seen) && |seen| % 64 < 63
    ensures Absorbed(buf, input[|seen| % 64 := b], seen + [b])
  {
    hide Chain, BlockWords;
    var r := |seen| % 64;
    assert |seen + [b]| % 64 == r + 1;
    assert (seen + [b])[..|seen| - r] == seen[..|seen| - r];
    assert (seen + [b])[|seen| - r..] == seen[|seen| - r..] + [b];
    assert input[r := b][..r + 1] == input[..r] + [b];
  }

  ghost function CompressBytes(buf: State, block: seq<byte>): State
    requires |block| == 64
  {
    Compress(buf, Words(block))
  }

  /** One more byte, which fills the block. */
  lemma BlockAbsorbed(buf: State, input: seq<byte>, seen: seq<byte>, b: byte)
    requires Absorbed(buf, input, seen) && |seen| % 64 == 63
    ensures var block := input[63 := b];
            Absorbed(CompressBytes(buf, block), block, seen + [b])
  {
    hide Chain, Compress, Word;
    var block, n := input[63 := b], |seen| - 63;
    assert |seen + [b]| % 64 == 0;
    assert input[..63] == seen[n..];
    assert block == seen[n..] + [b];
    assert seen + [b] == seen[..n] + block;
    assert (seen + [b])[..n + 64] == seen + [b];
    FourInSixteen(n);
    FourInSixteen(n + 64);
    WordsAppend(seen[..n], block);
    ChainAppend(INITIAL, Words(seen[..n]), Words(block));
  }

  /** The loops that put four bytes together. */
  method Decode(input: seq<byte>, n: nat) returns (x: seq<word>)
    requires 4 * n <= |input|
    ensures 4 * n % 4 == 0 && x == Words(input[..4 * n])
  {
    hide Word;
    x := [];
    for i := 0 to n
      invariant |x| == i && forall k :: 0 <= k < i ==> x[k] == Word(input[4 * k], input[4 * k + 1], input[4 * k + 2], input[4 * k + 3])
    {
      x := x + [Word(input[4 * i], input[4 * i + 1], input[4 * i + 2], input[4 * i + 3])];
    }
  }

  class Context {
    var i0: nat
    var i1: nat
    var buf: State
    const input: array<byte>
    const digest: array<byte>
    ghost var seen: seq<byte>

    ghost predicate Valid()
      reads this, input
    {
      && input.Length == 64 && digest.Length == 16 && input != digest
      && Counted(i0, i1, |seen|) && Absorbed(buf, input[..], seen)
    }

    constructor ()
      ensures Valid() && seen == [] && fresh(input) && fresh(digest)
    {
      input, digest := new byte[64], new byte[16];
      buf := INITIAL;
      new;
      MD5Init();
    }

    method MD5Init()
      requires input.Length == 64 && digest.Length == 16 && input != digest
      modifies this
      ensures Valid() && seen == []
    {
      hide Absorbed;
      i0, i1 := 0, 0;
      buf := State(0x67452301, 0xefcdab89, 0x98badcfe, 0x10325476);
      seen := [];
      NothingAbsorbed(input[..]);
    }

    /** The block is decoded and transformed. */
    method CompressInput()
      requires input.Length == 64
      modifies this`buf
      ensures buf == CompressBytes(old(buf), input[..])
    {
      hide Compress, Words;
      var x := Decode(input[..], 16);
      assert input[..][..64] == input[..];
      buf := Transform(buf, x);
    }

    /** The loop of MD5Update. */
    method Absorb(inBuf: seq<byte>, mdi0: nat, ghost before: seq<byte>)
      requires input.Length == 64 && Absorbed(buf, input[..], before) && mdi0 == |before| % 64
      modifies this`buf, input
      ensures Absorbed(buf, input[..], before + inBuf)
    {
      hide Absorbed, CompressBytes;
      var mdi := mdi0;
      assert before + inBuf[..0] == before;
      for k := 0 to |inBuf|
        invariant Absorbed(buf, input[..], before + inBuf[..k]) && mdi == (|before| + k) % 64
      {
        ghost var now, block := before + inBuf[..k], input[..];
        assert now + [inBuf[k]] == before + inBuf[..k + 1];
        input[mdi] := inBuf[k];
        assert input[..] == block[mdi := inBuf[k]];
        mdi := mdi + 1;
        if mdi == 0x40 {
          BlockAbsorbed(buf, block, now, inBuf[k]);
          CompressInput();
          mdi := 0;
        } else {
          ByteAbsorbed(buf, block, now, inBuf[k]);
        }
      }
      assert inBuf[..|inBuf|] == inBuf;
    }

    /** MD5Update */
    method MD5Update(inBuf: seq<byte>)
      requires Valid() && |inBuf| < TWO32
      modifies this, input
      ensures Valid() && seen == old(seen) + inBuf
    {
      hide Absorbed, Counted;
      Position(i0, i1, |seen|);
      var mdi := i0 / 8 % 64;
      i0, i1 := CountBits(i0, i1, |inBuf|, |seen|);
      Absorb(inBuf, mdi, seen);
      seen := seen + inBuf;
    }

    /** MD5Final: the digest of all bytes seen. */
    method MD5Final()
      requires Valid()
      modifies this, input, digest
      ensures buf == Md5(old(seen)) && digest.Length == 16 && digest[..] == Digest(Md5(old(seen)))
    {
      hide Absorbed, Counted, Md5, Compress, Digest, FinalBlock, Padding, PadLength;
      ghost var message := seen;
      var j0, j1 := i0, i1;
      Pad();
      var x := FinalWords(input[..], j0, j1, |message|);
      LastBlock(buf, input[..], message);
      buf := Transform(buf, x);
      StoreDigest(digest, buf);
    }

    /** The padding to 56 modulo 64. */
    method Pad()
      requires Valid()
      modifies this, input
      ensures Valid() && seen == old(seen) + Padding(|old(seen)|)
    {
      hide Absorbed, Counted, PADDING, Padding;
      Position(i0, i1, |seen|);
      var mdi := i0 / 8 % 64;
      var padLen := if mdi < 56 then 56 - mdi else 120 - mdi;
      PaddingIs(|seen|);
      MD5Update(PADDING[..padLen]);
    }
  }

  const PADDING: seq<byte> := [0x80] + Zeros(63)

  lemma PaddingIs(n: nat)
    ensures |PADDING| == 64 && PADDING[..PadLength(n)] == Padding(n)
  {
  }

  lemma CountedWords(i0: nat, i1: nat, n: nat)
    requires Counted(i0, i1, n)
    ensures i0 < TWO32 && i1 < TWO32 && LengthWords(n) == [i0 as word, i1 as word]
  {
  }

  /** The last 56 bytes and the length. */
  ghost function FinalBlock(input: seq<byte>, n: nat): (r: seq<word>)
    requires |input| == 64
    ensures |r| == 16
  {
    Words(input[..56]) + LengthWords(n)
  }

  method FinalWords(input: seq<byte>, i0: nat, i1: nat, ghost n: nat) returns (x: seq<word>)
    requires |input| == 64 && Counted(i0, i1, n)
    ensures x == FinalBlock(input, n)
  {
    hide Counted, Words, LengthWords;
    CountedWords(i0, i1, n);
    x := Decode(input, 14);
    x := x + [i0 as word, i1 as word];
  }

  /** The last block holds the end of the padded message and its length. */
  lemma LastBlock(buf: State, input: seq<byte>, m: seq<byte>)
    requires Absorbed(buf, input, m + Padding(|m|))
    ensures |input| == 64 && Md5(m) == Compress(buf, FinalBlock(input, |m|))
  {
    hide Chain, Compress, Word, LengthWords;
    var p := m + Padding(|m|);
    var n, tail := |p| - 56, input[..56];
    assert |p| % 64 == 56;
    assert p == p[..n] + tail;
    FourInSixteen(n);
    WordsAppend(p[..n], tail);
    var w, y, z := Words(p[..n]), Words(tail), LengthWords(|m|);
    assert (w + y) + z == w + (y + z);
    ChainAppend(INITIAL, w, y + z);
  }

  /** Four bytes of the digest. */
  method Store(digest: array<byte>, at: nat, w: word)
    requires at + 4 <= digest.Length
    modifies digest
    ensures digest[..] == old(digest[..])[..at] + Bytes(w) + old(digest[..])[at + 4..]
  {
    ghost var b := Bytes(w);
    assert b[0] == (w & 0xff) as byte && b[1] == ((w >> 8) & 0xff) as byte && b[2] == ((w >> 16) & 0xff) as byte
           && b[3] == ((w >> 24) & 0xff) as byte;
    digest[at] := (w & 0xff) as byte;
    digest[at + 1] := ((w >> 8) & 0xff) as byte;
    digest[at + 2] := ((w >> 16) & 0xff) as byte;
    digest[at + 3] := ((w >> 24) & 0xff) as byte;
    hide Bytes;
  }

  method StoreDigest(digest: array<byte>, v: State)
    requires digest.Length == 16
    modifies digest
    ensures digest[..] == Digest(v)
  {
    hide Bytes;
    Store(digest, 0, v.a);
    Store(digest, 4, v.b);
    Store(digest, 8, v.c);
    Store(digest, 12, v.d);
  }

  ghost function Joined(pieces: seq<seq<byte>>): seq<byte> {
    if pieces == [] then [] else Joined(pieces[..|pieces| - 1]) + pieces[|pieces| - 1]
  }

  /** However a message is split, the digest is that of the whole message. */
  method HashPieces(pieces: seq<seq<byte>>) returns (digest: seq<byte>)
    requires forall i :: 0 <= i < |pieces| ==> |pieces[i]| < TWO32
    ensures digest == Digest(Md5(Joined(pieces)))
  {
    hide Absorbed, Counted, Md5, Digest;
    var c := new Context();
    for k := 0 to |pieces|
      invariant c.Valid() && c.seen == Joined(pieces[..k]) && fresh(c) && fresh(c.input) && fresh(c.digest)
    {
      c.MD5Update(pieces[k]);
      assert pieces[..k + 1][..k] == pieces[..k];
    }
    assert pieces[..|pieces|] == pieces;
    c.MD5Final();
    digest := c.digest[..];
  }
}
