/** md5.js: the whole message at once, with 32-bit addition made of smaller ones. */
module Md5Js {
  import opened Basics
  import opened Md5Spec

  // ---- AddUnsigned

  /** The sum of the low 30 bits, corrected by the two high bits of both numbers. */
  function Corrected(result: word, x4: word, y4: word, x8: word, y8: word): word {
    if x4 & y4 != 0 then result ^ 0x80000000 ^ x8 ^ y8
    else if x4 | y4 != 0 then
      if result & 0x40000000 != 0 then result ^ 0xc0000000 ^ x8 ^ y8 else result ^ 0x40000000 ^ x8 ^ y8
    else result ^ x8 ^ y8
  }

  function AddUnsigned(x: word, y: word): word {
    Corrected((x & 0x3fffffff) + (y & 0x3fffffff), x & 0x40000000, y & 0x40000000, x & 0x80000000, y & 0x80000000)
  }

  lemma InParts(x: word)
    ensures x == (x & 0x3fffffff) + (x & 0x40000000) + (x & 0x80000000)
  {
  }

  lemma HighBits(x: word)
    ensures x & 0x40000000 == 0 || x & 0x40000000 == 0x40000000
    ensures x & 0x80000000 == 0 || x & 0x80000000 == 0x80000000
  {
  }

  lemma TopBit(v: word, t: word)
    requires t == 0 || t == 0x80000000
    ensures v ^ t == v + t
  {
  }

  lemma SecondBit(r: word)
    requires r & 0x80000000 == 0
    ensures r & 0x40000000 != 0 ==> r ^ 0xc0000000 == r + 0x40000000
    ensures r & 0x40000000 == 0 ==> r ^ 0x40000000 == r + 0x40000000
  {
  }

  lemma LowSum(x: word, y: word)
    ensures ((x & 0x3fffffff) + (y & 0x3fffffff)) & 0x80000000 == 0
  {
  }

  lemma SumOfParts(a: word, b: word, c: word, d: word, e: word, f: word)
    ensures (a + b + c) + (d + e + f) == (a + d) + (b + e) + c + f
  {
  }

  lemma UpperSum(r: word, x4: word, y4: word, x8: word, y8: word)
    requires (x4 == 0 || x4 == 0x40000000) && (y4 == 0 || y4 == 0x40000000) && r & 0x80000000 == 0
    requires (x8 == 0 || x8 == 0x80000000) && (y8 == 0 || y8 == 0x80000000)
    ensures Corrected(r, x4, y4, x8, y8) == r + (x4 + y4) + x8 + y8
  {
    var s := r + (x4 + y4);
    SecondBit(r);
    TopBit(r, 0x80000000);
    TopBit(s, x8);
    TopBit(s + x8, y8);
  }

  lemma AddUnsignedParts(x: word, y: word)
    ensures AddUnsigned(x, y)
         == ((x & 0x3fffffff) + (y & 0x3fffffff)) + ((x & 0x40000000) + (y & 0x40000000)) + (x & 0x80000000) + (y & 0x80000000)
  {
    hide Corrected;
    HighBits(x);
    HighBits(y);
    LowSum(x, y);
    UpperSum((x & 0x3fffffff) + (y & 0x3fffffff), x & 0x40000000, y & 0x40000000, x & 0x80000000, y & 0x80000000);
  }

  lemma Combine(x: word, y: word, a: word, b: word, c: word, d: word, e: word, f: word)
    requires x == a + b + c && y == d + e + f
    ensures (a + d) + (b + e) + c + f == Add(x, y)
  {
    SumOfParts(a, b, c, d, e, f);
  }

  /** The hand-made addition is addition modulo 2^32. */
  lemma AddUnsignedIsAdd(x: word, y: word)
    ensures AddUnsigned(x, y) == Add(x, y)
  {
    hide AddUnsigned, Add;
    InParts(x);
    InParts(y);
    AddUnsignedParts(x, y);
    Combine(x, y, x & 0x3fffffff, x & 0x40000000, x & 0x80000000, y & 0x3fffffff, y & 0x40000000, y & 0x80000000);
  }

  lemma AddsUp()
    ensures forall x: word, y: word :: AddUnsigned(x, y) == Add(x, y)
  {
    hide AddUnsigned, Add;
    forall x: word, y: word ensures AddUnsigned(x, y) == Add(x, y) {
      AddUnsignedIsAdd(x, y);
    }
  }

  // ---- The rounds

  method FF(a: word, b: word, c: word, d: word, x: word, s: nat, ac: word, ghost i: nat, ghost block: seq<word>) returns (r: word)
    requires 0 <= i < 16 && |block| == 16 && x == block[Index(i)] && s == Shift(i) && ac == Sine(i)
    ensures r == Register(i, block, a, b, c, d)
  {
    hide F, G, H, I, Rotate, Add, Sine, Index, Shift, AddUnsigned;
    AddsUp();
    var t := AddUnsigned(a, AddUnsigned(AddUnsigned(F(b, c, d), x), ac));
    r := AddUnsigned(Rotate(t, s), b);
  }

  method GG(a: word, b: word, c: word, d: word, x: word, s: nat, ac: word, ghost i: nat, ghost block: seq<word>) returns (r: word)
    requires 16 <= i < 32 && |block| == 16 && x == block[Index(i)] && s == Shift(i) && ac == Sine(i)
    ensures r == Register(i, block, a, b, c, d)
  {
    hide F, G, H, I, Rotate, Add, Sine, Index, Shift, AddUnsigned;
    AddsUp();
    var t := AddUnsigned(a, AddUnsigned(AddUnsigned(G(b, c, d), x), ac));
    r := AddUnsigned(Rotate(t, s), b);
  }

  method HH(a: word, b: word, c: word, d: word, x: word, s: nat, ac: word, ghost i: nat, ghost block: seq<word>) returns (r: word)
    requires 32 <= i < 48 && |block| == 16 && x == block[Index(i)] && s == Shift(i) && ac == Sine(i)
    ensures r == Register(i, block, a, b, c, d)
  {
    hide F, G, H, I, Rotate, Add, Sine, Index, Shift, AddUnsigned;
    AddsUp();
    var t := AddUnsigned(a, AddUnsigned(AddUnsigned(H(b, c, d), x), ac));
    r := AddUnsigned(Rotate(t, s), b);
  }

  method II(a: word, b: word, c: word, d: word, x: word, s: nat, ac: word, ghost i: nat, ghost block: seq<word>) returns (r: word)
    requires 48 <= i < 64 && |block| == 16 && x == block[Index(i)] && s == Shift(i) && ac == Sine(i)
    ensures r == Register(i, block, a, b, c, d)
  {
    hide F, G, H, I, Rotate, Add, Sine, Index, Shift, AddUnsigned;
    AddsUp();
    var t := AddUnsigned(a, AddUnsigned(AddUnsigned(I(b, c, d), x), ac));
    r := AddUnsigned(Rotate(t, s), b);
  }

  method FirstRoundStart(v: State, x: seq<word>, ghost start: State) returns (w: State)
    requires |x| == 16 && v == Steps(start, x, 0)
    ensures w == Steps(start, x, 8)
  {
    hide Steps, Register;
    var a, b, c, d := v.a, v.b, v.c, v.d;
    FourSteps(start, x, 0);
    a := FF(a, b, c, d, x[0], 7, 0xd76aa478, 0, x);
    d := FF(d, a, b, c, x[1], 12, 0xe8c7b756, 1, x);
    c := FF(c, d, a, b, x[2], 17, 0x242070db, 2, x);
    b := FF(b, c, d, a, x[3], 22, 0xc1bdceee, 3, x);
    FourSteps(start, x, 4);
    a := FF(a, b, c, d, x[4], 7, 0xf57c0faf, 4, x);
    d := FF(d, a, b, c, x[5], 12, 0x4787c62a, 5, x);
    c := FF(c, d, a, b, x[6], 17, 0xa8304613, 6, x);
    b := FF(b, c, d, a, x[7], 22, 0xfd469501, 7, x);
    w := State(a, b, c, d);
  }

  method FirstRoundEnd(v: State, x: seq<word>, ghost start: State) returns (w: State)
    requires |x| == 16 && v == Steps(start, x, 8)
    ensures w == Steps(start, x, 16)
  {
    hide Steps, Register;
    var a, b, c, d := v.a, v.b, v.c, v.d;
    FourSteps(start, x, 8);
    a := FF(a, b, c, d, x[8], 7, 0x698098d8, 8, x);
    d := FF(d, a, b, c, x[9], 12, 0x8b44f7af, 9, x);
    c := FF(c, d, a, b, x[10], 17, 0xffff5bb1, 10, x);
    b := FF(b, c, d, a, x[11], 22, 0x895cd7be, 11, x);
    FourSteps(start, x, 12);
    a := FF(a, b, c, d, x[12], 7, 0x6b901122, 12, x);
    d := FF(d, a, b, c, x[13], 12, 0xfd987193, 13, x);
    c := FF(c, d, a, b, x[14], 17, 0xa679438e, 14, x);
    b := FF(b, c, d, a, x[15], 22, 0x49b40821, 15, x);
    w := State(a, b, c, d);
  }

  method SecondRoundStart(v: State, x: seq<word>, ghost start: State) returns (w: State)
    requires |x| == 16 && v == Steps(start, x, 16)
    ensures w == Steps(start, x, 24)
  {
    hide Steps, Register;
    var a, b, c, d := v.a, v.b, v.c, v.d;
    FourSteps(start, x, 16);
    a := GG(a, b, c, d, x[1], 5, 0xf61e2562, 16, x);
    d := GG(d, a, b, c, x[6], 9, 0xc040b340, 17, x);
    c := GG(c, d, a, b, x[11], 14, 0x265e5a51, 18, x);
    b := GG(b, c, d, a, x[0], 20, 0xe9b6c7aa, 19, x);
    FourSteps(start, x, 20);
    a := GG(a, b, c, d, x[5], 5, 0xd62f105d, 20, x);
    d := GG(d, a, b, c, x[10], 9, 0x2441453, 21, x);
    c := GG(c, d, a, b, x[15], 14, 0xd8a1e681, 22, x);
    b := GG(b, c, d, a, x[4], 20, 0xe7d3fbc8, 23, x);
    w := State(a, b, c, d);
  }

  method SecondRoundEnd(v: State, x: seq<word>, ghost start: State) returns (w: State)
    requires |x| == 16 && v == Steps(start, x, 24)
    ensures w == Steps(start, x, 32)
  {
    hide Steps, Register;
    var a, b, c, d := v.a, v.b, v.c, v.d;
    FourSteps(start, x, 24);
    a := GG(a, b, c, d, x[9], 5, 0x21e1cde6, 24, x);
    d := GG(d, a, b, c, x[14], 9, 0xc33707d6, 25, x);
    c := GG(c, d, a, b, x[3], 14, 0xf4d50d87, 26, x);
    b := GG(b, c, d, a, x[8], 20, 0x455a14ed, 27, x);
    FourSteps(start, x, 28);
    a := GG(a, b, c, d, x[13], 5, 0xa9e3e905, 28, x);
    d := GG(d, a, b, c, x[2], 9, 0xfcefa3f8, 29, x);
    c := GG(c, d, a, b, x[7], 14, 0x676f02d9, 30, x);
    b := GG(b, c, d, a, x[12], 20, 0x8d2a4c8a, 31, x);
    w := State(a, b, c, d);
  }

  method ThirdRoundStart(v: State, x: seq<word>, ghost start: State) returns (w: State)
    requires |x| == 16 && v == Steps(start, x, 32)
    ensures w == Steps(start, x, 40)
  {
    hide Steps, Register;
    var a, b, c, d := v.a, v.b, v.c, v.d;
    FourSteps(start, x, 32);
    a := HH(a, b, c, d, x[5], 4, 0xfffa3942, 32, x);
    d := HH(d, a, b, c, x[8], 11, 0x8771f681, 33, x);
    c := HH(c, d, a, b, x[11], 16, 0x6d9d6122, 34, x);
    b := HH(b, c, d, a, x[14], 23, 0xfde5380c, 35, x);
    FourSteps(start, x, 36);
    a := HH(a, b, c, d, x[1], 4, 0xa4beea44, 36, x);
    d := HH(d, a, b, c, x[4], 11, 0x4bdecfa9, 37, x);
    c := HH(c, d, a, b, x[7], 16, 0xf6bb4b60, 38, x);
    b := HH(b, c, d, a, x[10], 23, 0xbebfbc70, 39, x);
    w := State(a, b, c, d);
  }

  method ThirdRoundEnd(v: State, x: seq<word>, ghost start: State) returns (w: State)
    requires |x| == 16 && v == Steps(start, x, 40)
    ensures w == Steps(start, x, 48)
  {
    hide Steps, Register;
    var a, b, c, d := v.a, v.b, v.c, v.d;
    FourSteps(start, x, 40);
    a := HH(a, b, c, d, x[13], 4, 0x289b7ec6, 40, x);
    d := HH(d, a, b, c, x[0], 11, 0xeaa127fa, 41, x);
    c := HH(c, d, a, b, x[3], 16, 0xd4ef3085, 42, x);
    b := HH(b, c, d, a, x[6], 23, 0x4881d05, 43, x);
    FourSteps(start, x, 44);
    a := HH(a, b, c, d, x[9], 4, 0xd9d4d039, 44, x);
    d := HH(d, a, b, c, x[12], 11, 0xe6db99e5, 45, x);
    c := HH(c, d, a, b, x[15], 16, 0x1fa27cf8, 46, x);
    b := HH(b, c, d, a, x[2], 23, 0xc4ac5665, 47, x);
    w := State(a, b, c, d);
  }

  method FourthRoundStart(v: State, x: seq<word>, ghost start: State) returns (w: State)
    requires |x| == 16 && v == Steps(start, x, 48)
    ensures w == Steps(start, x, 56)
  {
    hide Steps, Register;
    var a, b, c, d := v.a, v.b, v.c, v.d;
    FourSteps(start, x, 48);
    a := II(a, b, c, d, x[0], 6, 0xf4292244, 48, x);
    d := II(d, a, b, c, x[7], 10, 0x432aff97, 49, x);
    c := II(c, d, a, b, x[14], 15, 0xab9423a7, 50, x);
    b := II(b, c, d, a, x[5], 21, 0xfc93a039, 51, x);
    FourSteps(start, x, 52);
    a := II(a, b, c, d, x[12], 6, 0x655b59c3, 52, x);
    d := II(d, a, b, c, x[3], 10, 0x8f0ccc92, 53, x);
    c := II(c, d, a, b, x[10], 15, 0xffeff47d, 54, x);
    b := II(b, c, d, a, x[1], 21, 0x85845dd1, 55, x);
    w := State(a, b, c, d);
  }

  method FourthRoundEnd(v: State, x: seq<word>, ghost start: State) returns (w: State)
    requires |x| == 16 && v == Steps(start, x, 56)
    ensures w == Steps(start, x, 64)
  {
    hide Steps, Register;
    var a, b, c, d := v.a, v.b, v.c, v.d;
    FourSteps(start, x, 56);
    a := II(a, b, c, d, x[8], 6, 0x6fa87e4f, 56, x);
    d := II(d, a, b, c, x[15], 10, 0xfe2ce6e0, 57, x);
    c := II(c, d, a, b, x[6], 15, 0xa3014314, 58, x);
    b := II(b, c, d, a, x[13], 21, 0x4e0811a1, 59, x);
    FourSteps(start, x, 60);
    a := II(a, b, c, d, x[4], 6, 0xf7537e82, 60, x);
    d := II(d, a, b, c, x[11], 10, 0xbd3af235, 61, x);
    c := II(c, d, a, b, x[2], 15, 0x2ad7d2bb, 62, x);
    b := II(b, c, d, a, x[9], 21, 0xeb86d391, 63, x);
    w := State(a, b, c, d);
  }

  method Rounds(v: State, x: seq<word>) returns (w: State)
    requires |x| == 16
    ensures w == Steps(v, x, 64)
  {
    w := FirstRoundStart(v, x, v);
    hide Steps;
    w := FirstRoundEnd(w, x, v);
    w := SecondRoundStart(w, x, v);
    w := SecondRoundEnd(w, x, v);
    w := ThirdRoundStart(w, x, v);
    w := ThirdRoundEnd(w, x, v);
    w := FourthRoundStart(w, x, v);
    w := FourthRoundEnd(w, x, v);
  }

  /** One round of the block loop. */
  method Block(v: State, x: seq<word>) returns (r: State)
    requires |x| == 16
    ensures r == Compress(v, x)
  {
    hide Steps, AddUnsigned, Add;
    AddsUp();
    var w := Rounds(v, x);
    r := State(AddUnsigned(w.a, v.a), AddUnsigned(w.b, v.b), AddUnsigned(w.c, v.c), AddUnsigned(w.d, v.d));
    AddCommutes(w, v);
  }

  lemma AddCommutes(w: State, v: State)
    ensures Add(w.a, v.a) == Add(v.a, w.a) && Add(w.b, v.b) == Add(v.b, w.b) && Add(w.c, v.c) == Add(v.c, w.c)
            && Add(w.d, v.d) == Add(v.d, w.d)
  {
  }

  // ---- ConvertToWordArray

  /** Byte `i` of the message, when only `k` bytes are there yet. */
  function ByteAt(m: seq<byte>, k: nat, i: nat): byte
    requires k <= |m|
  {
    if i < k then m[i] else 0
  }

  function WordAt(m: seq<byte>, k: nat, w: nat): word
    requires k <= |m|
  {
    Word(ByteAt(m, k, 4 * w), ByteAt(m, k, 4 * w + 1), ByteAt(m, k, 4 * w + 2), ByteAt(m, k, 4 * w + 3))
  }

  function Or(w: word, b: byte, position: nat): word
    requires position <= 24
  {
    w | ((b as word) << position)
  }

  lemma OrFirst(x: byte)
    ensures Or(Word(0, 0, 0, 0), x, 0) == Word(x, 0, 0, 0)
  {
  }

  lemma OrSecond(a: byte, x: byte)
    ensures Or(Word(a, 0, 0, 0), x, 8) == Word(a, x, 0, 0)
  {
  }

  lemma OrThird(a: byte, b: byte, x: byte)
    ensures Or(Word(a, b, 0, 0), x, 16) == Word(a, b, x, 0)
  {
  }

  lemma OrFourth(a: byte, b: byte, c: byte, x: byte)
    ensures Or(Word(a, b, c, 0), x, 24) == Word(a, b, c, x)
  {
  }

  /** A byte is or-ed into its word. */
  lemma PutByte(m: seq<byte>, k: nat, w: nat)
    requires k < |m|
    ensures WordAt(m, k + 1, w) == if w == k / 4 then Or(WordAt(m, k, w), m[k], k % 4 * 8) else WordAt(m, k, w)
  {
    hide Word, Or;
    if w == k / 4 {
      var r := k % 4;
      assert k == 4 * w + r;
      OrFirst(m[k]);
      OrSecond(ByteAt(m, k, 4 * w), m[k]);
      OrThird(ByteAt(m, k, 4 * w), ByteAt(m, k, 4 * w + 1), m[k]);
      OrFourth(ByteAt(m, k, 4 * w), ByteAt(m, k, 4 * w + 1), ByteAt(m, k, 4 * w + 2), m[k]);
    }
  }

  /** The high word of the length, as ToUint32 and >>> make it. */
  function JsHigh(n: nat): (r: nat)
    ensures r < TWO32
  {
    n % TWO32 / 0x2000_0000
  }

  function JsLengthWords(n: nat): (r: seq<word>)
    ensures |r| == 2
  {
    [(8 * n % TWO32) as word, JsHigh(n) as word]
  }

  /** The blocks that ConvertToWordArray makes. */
  function JsPadded(m: seq<byte>): (r: seq<word>)
    ensures |r| % 16 == 0
  {
    var p := m + Padding(|m|);
    PaddedSize(|p|);
    Words(p) + JsLengthWords(|m|)
  }

  /** The number of words. */
  lemma WordCount(n: nat)
    ensures var words := ((n + 8 - (n + 8) % 64) / 64 + 1) * 16;
            (n + PadLength(n)) % 4 == 0 && (n + PadLength(n)) / 4 == words - 2 && n / 4 < words - 2
  {
    var q, r := n / 64, n % 64;
    assert n == 64 * q + r;
    var blocks := if r < 56 then q + 1 else q + 2;
    assert n + PadLength(n) == 64 * blocks - 8;
    hide PadLength;
    Blocks(n, q, r);
    Quarter(n, n + PadLength(n), 16 * blocks - 2);
  }

  lemma Quarter(n: nat, t: nat, w: nat)
    requires n < t == 4 * w
    ensures t % 4 == 0 && t / 4 == w && n / 4 < w
  {
  }

  lemma Blocks(n: nat, q: nat, r: nat)
    requires n == 64 * q + r && r < 64
    ensures (n + 8 - (n + 8) % 64) / 64 == if r < 56 then q else q + 1
  {
    if r < 56 {
      Whole(n + 8, q, r + 8);
    } else {
      Whole(n + 8, q + 1, r - 56);
    }
  }

  lemma Whole(v: nat, q: nat, r: nat)
    requires v == 64 * q + r && r < 64
    ensures (v - v % 64) / 64 == q
  {
    assert v % 64 == r;
  }

  lemma ShiftedLength(n: nat)
    ensures n % TWO32 * 8 % TWO32 == 8 * n % TWO32
  {
    var q, r := n / TWO32, n % TWO32;
    assert 8 * n == 8 * q * TWO32 + 8 * r;
  }

  /** The words of the padded bytes are those that have been or-ed together. */
  lemma PaddedWord(m: seq<byte>, w: nat)
    requires var p := m + Padding(|m|); |p| % 4 == 0 && w < |p| / 4
    ensures Words(m + Padding(|m|))[w] == WordAt(m + [0x80], |m| + 1, w)
  {
    hide Word;
    var p, m' := m + Padding(|m|), m + [0x80];
    forall i | 0 <= i < |p| ensures p[i] == ByteAt(m', |m| + 1, i) {
    }
  }

  /** The loop that fills the words. */
  method FillWords(a: array<word>, m: seq<byte>)
    requires |m| >= 1 && 4 * a.Length >= |m| && forall w :: 0 <= w < a.Length ==> a[w] == 0
    modifies a
    ensures forall w :: 0 <= w < a.Length ==> a[w] == WordAt(m, |m|, w)
  {
    hide WordAt, Or;
    forall w | 0 <= w < a.Length ensures WordAt(m, 0, w) == 0 {
      NoBytes(m, w);
    }
    for byteCount := 0 to |m|
      invariant forall w :: 0 <= w < a.Length ==> a[w] == WordAt(m, byteCount, w)
    {
      ghost var before := a[..];
      var wordCount, bytePosition := byteCount / 4, byteCount % 4 * 8;
      a[wordCount] := Or(a[wordCount], m[byteCount], bytePosition);
      assert a[..] == before[wordCount := Or(before[wordCount], m[byteCount], bytePosition)];
      NextByte(before, a[..], m, byteCount);
    }
  }

  lemma NextByte(before: seq<word>, after: seq<word>, m: seq<byte>, k: nat)
    requires k < |m| && k / 4 < |before| && forall w :: 0 <= w < |before| ==> before[w] == WordAt(m, k, w)
    requires after == before[k / 4 := Or(before[k / 4], m[k], k % 4 * 8)]
    ensures forall w :: 0 <= w < |after| ==> after[w] == WordAt(m, k + 1, w)
  {
    hide WordAt, Or;
    forall w | 0 <= w < |after| ensures after[w] == WordAt(m, k + 1, w) {
      PutByte(m, k, w);
    }
  }

  lemma NoBytes(m: seq<byte>, w: nat)
    ensures WordAt(m, 0, w) == 0
  {
  }

  /** ConvertToWordArray: all blocks of the padded message at once. */
  method ConvertToWordArray(m: seq<byte>) returns (x: seq<word>)
    ensures x == JsPadded(m)
  {
    hide WordAt, Words;
    var n := |m|;
    var temp1 := n + 8;
    var temp2 := (temp1 - temp1 % 64) / 64;
    var words := (temp2 + 1) * 16;
    WordCount(n);
    ShiftedLength(n);
    var a := new word[words](_ => 0);
    FillWords(a, m + [0x80]);
    a[words - 2] := (n % TWO32 * 8 % TWO32) as word;
    a[words - 1] := (n % TWO32 / 0x2000_0000) as word;
    x := a[..];
    ghost var p := m + Padding(n);
    forall w | 0 <= w < words - 2 ensures x[w] == Words(p)[w] {
      PaddedWord(m, w);
    }
    assert x == Words(p) + JsLengthWords(n);
  }

  /** The block loop: the four chaining words. */
  method MD5(m: seq<byte>) returns (v: State)
    ensures v == Chain(INITIAL, JsPadded(m))
  {
    hide Compress, JsPadded;
    var x := ConvertToWordArray(m);
    v := State(0x67452301, 0xefcdab89, 0x98badcfe, 0x10325476);
    var k := 0;
    assert x[..0] == [];
    while k < |x|
      invariant 0 <= k <= |x| && k % 16 == 0 && v == Chain(INITIAL, x[..k])
      decreases |x| - k
    {
      var block := x[k..k + 16];
      ChainAppend(INITIAL, x[..k], block);
      assert x[..k] + block == x[..k + 16];
      v := Block(v, block);
      k := k + 16;
    }
    assert x[..k] == x;
  }

  // ---- Agreement with RFC 1321 and md5.c

  const TWO53 := 0x20_0000_0000_0000
  const TWO61 := 0x2000_0000_0000_0000

  /** What the two programs write as the high word of the length: the lost part is `h`. */
  lemma HighWords(n: nat) returns (h: nat, t: nat)
    ensures h < 0x2000_0000 && t < 8
    ensures JsHigh(n) == t && 8 * n / TWO32 % TWO32 == 8 * h + t
    ensures h == 0 <==> n % TWO61 < TWO32
  {
    var q, r := n / TWO61, n % TWO61;
    h := r / TWO32;
    var l := r % TWO32;
    t := l / 0x2000_0000;
    HighParts(n, q, h, t, l % 0x2000_0000);
  }

  lemma HighParts(n: nat, q: nat, h: nat, t: nat, u: nat)
    requires n == TWO61 * q + TWO32 * h + 0x2000_0000 * t + u && h < 0x2000_0000 && t < 8 && u < 0x2000_0000
    ensures n % TWO32 / 0x2000_0000 == t && 8 * n / TWO32 % TWO32 == 8 * h + t
  {
    assert n == TWO32 * (0x2000_0000 * q + h) + (0x2000_0000 * t + u);
    assert n % TWO32 == 0x2000_0000 * t + u;
    assert 8 * n == TWO32 * (TWO32 * q + (8 * h + t)) + 8 * u;
    assert 8 * n / TWO32 == TWO32 * q + (8 * h + t);
  }

  /** No two of these numbers are the same word. */
  lemma LostPart(h: nat, t: nat)
    requires h < 0x2000_0000 && t < 8 && t as word == (8 * h + t) as word
    ensures h == 0
  {
  }

  /** Both programs hash the same blocks exactly when the length, modulo 2^61, fits 32 bits. */
  lemma SameBlocks(m: seq<byte>)
    ensures JsPadded(m) == Padded(m) <==> |m| % TWO61 < TWO32
  {
    hide Words;
    var h, t := HighWords(|m|);
    var k := |JsPadded(m)| - 1;
    assert JsPadded(m)[k] == t as word;
    assert Padded(m)[k] == (8 * h + t) as word;
    if JsPadded(m) == Padded(m) {
      LostPart(h, t);
    }
  }

  /** A length of a JavaScript string is an integer below 2^53: the blocks are the same exactly when it fits 32 bits,
      and then both programs reach the same four words. */
  lemma SameHash(m: seq<byte>)
    requires |m| < TWO53
    ensures JsPadded(m) == Padded(m) <==> |m| < TWO32
    ensures |m| < TWO32 ==> Chain(INITIAL, JsPadded(m)) == Md5(m)
  {
    hide Chain, JsPadded, Padded;
    SameBlocks(m);
  }

  /** The shortest messages whose length is lost. */
  lemma LengthLost(m: seq<byte>)
    requires |m| == TWO32
    ensures JsPadded(m) != Padded(m)
  {
    hide JsPadded, Padded;
    SameBlocks(m);
  }
}
