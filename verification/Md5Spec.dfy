/** MD5 as RFC 1321 defines it: padding, the table of steps, and the chaining over blocks. */
module Md5Spec {
  import opened Basics

  type word = bv32

  const TWO32 := 0x1_0000_0000

  // ---- Section 3.4: the steps

  function F(x: word, y: word, z: word): word { (x & y) | (!x & z) }
  function G(x: word, y: word, z: word): word { (x & z) | (y & !z) }
  function H(x: word, y: word, z: word): word { x ^ y ^ z }
  function I(x: word, y: word, z: word): word { y ^ (x | !z) }

  function Rotate(x: word, s: nat): word
    requires 0 < s < 32
  {
    (x << s) | (x >> (32 - s))
  }

  /** Addition modulo 2^32. */
  function Add(x: word, y: word): word { x + y }

  // ---- Bit by bit

  /** F takes y where x is set and z elsewhere. */
  lemma FTakes(x: word, y: word, z: word)
    ensures F(x, y, z) & x == y & x
    ensures F(x, y, z) & !x == z & !x
  {
  }

  /** G takes x where z is set and y elsewhere. */
  lemma GTakes(x: word, y: word, z: word)
    ensures G(x, y, z) & z == x & z
    ensures G(x, y, z) & !z == y & !z
  {
  }

  /** H sums up without carry. */
  lemma HSums(x: word, y: word, z: word)
    ensures H(x, y, z) ^ x == y ^ z
  {
  }

  /** I keeps y where x is clear and z is set and inverts it elsewhere. */
  lemma IInverts(x: word, y: word, z: word)
    ensures I(x, y, z) & (!x & z) == y & (!x & z)
    ensures I(x, y, z) & (x | !z) == !y & (x | !z)
  {
  }

  datatype State = State(a: word, b: word, c: word, d: word)

  /** The table of section 3.4: the integer parts of 4294967296 times the sines of 1 to 64, by rounds. */
  function Sine(i: nat): word {
    if i < 16 then Sine1(i) else if i < 32 then Sine2(i - 16) else if i < 48 then Sine3(i - 32) else Sine4(i - 48)
  }

  function Sine1(i: nat): word {
    match i
    case 0 => 0xd76aa478
    case 1 => 0xe8c7b756
    case 2 => 0x242070db
    case 3 => 0xc1bdceee
    case 4 => 0xf57c0faf
    case 5 => 0x4787c62a
    case 6 => 0xa8304613
    case 7 => 0xfd469501
    case 8 => 0x698098d8
    case 9 => 0x8b44f7af
    case 10 => 0xffff5bb1
    case 11 => 0x895cd7be
    case 12 => 0x6b901122
    case 13 => 0xfd987193
    case 14 => 0xa679438e
    case _ => 0x49b40821
  }

  function Sine2(i: nat): word {
    match i
    case 0 => 0xf61e2562
    case 1 => 0xc040b340
    case 2 => 0x265e5a51
    case 3 => 0xe9b6c7aa
    case 4 => 0xd62f105d
    case 5 => 0x02441453
    case 6 => 0xd8a1e681
    case 7 => 0xe7d3fbc8
    case 8 => 0x21e1cde6
    case 9 => 0xc33707d6
    case 10 => 0xf4d50d87
    case 11 => 0x455a14ed
    case 12 => 0xa9e3e905
    case 13 => 0xfcefa3f8
    case 14 => 0x676f02d9
    case _ => 0x8d2a4c8a
  }

  function Sine3(i: nat): word {
    match i
    case 0 => 0xfffa3942
    case 1 => 0x8771f681
    case 2 => 0x6d9d6122
    case 3 => 0xfde5380c
    case 4 => 0xa4beea44
    case 5 => 0x4bdecfa9
    case 6 => 0xf6bb4b60
    case 7 => 0xbebfbc70
    case 8 => 0x289b7ec6
    case 9 => 0xeaa127fa
    case 10 => 0xd4ef3085
    case 11 => 0x04881d05
    case 12 => 0xd9d4d039
    case 13 => 0xe6db99e5
    case 14 => 0x1fa27cf8
    case _ => 0xc4ac5665
  }

  function Sine4(i: nat): word {
    match i
    case 0 => 0xf4292244
    case 1 => 0x432aff97
    case 2 => 0xab9423a7
    case 3 => 0xfc93a039
    case 4 => 0x655b59c3
    case 5 => 0x8f0ccc92
    case 6 => 0xffeff47d
    case 7 => 0x85845dd1
    case 8 => 0x6fa87e4f
    case 9 => 0xfe2ce6e0
    case 10 => 0xa3014314
    case 11 => 0x4e0811a1
    case 12 => 0xf7537e82
    case 13 => 0xbd3af235
    case 14 => 0x2ad7d2bb
    case _ => 0xeb86d391
  }

  /** The auxiliary function of a round. */
  function Mix(round: nat, x: word, y: word, z: word): word {
    if round == 0 then F(x, y, z) else if round == 1 then G(x, y, z) else if round == 2 then H(x, y, z) else I(x, y, z)
  }

  /** Which word of the block step `i` takes. */
  function Index(i: nat): (k: nat)
    ensures k < 16
  {
    if i < 16 then i % 16 else if i < 32 then (5 * i + 1) % 16 else if i < 48 then (3 * i + 5) % 16 else 7 * i % 16
  }

  /** How far step `i` rotates. */
  function Shift(i: nat): (s: nat)
    ensures 0 < s < 32
  {
    if i < 16 then 7 + 5 * (i % 4)
    else if i < 32 then (if i % 4 == 0 then 5 else if i % 4 == 1 then 9 else if i % 4 == 2 then 14 else 20)
    else if i < 48 then (if i % 4 == 0 then 4 else if i % 4 == 1 then 11 else if i % 4 == 2 then 16 else 23)
    else (if i % 4 == 0 then 6 else if i % 4 == 1 then 10 else if i % 4 == 2 then 15 else 21)
  }

  /** a := b + ((a + f(b, c, d) + x + t) <<< s) */
  function Turn(f: word, a: word, b: word, x: word, s: nat, t: word): word
    requires 0 < s < 32
  {
    Add(Rotate(Add(a, Add(Add(f, x), t)), s), b)
  }

  function Step(v: State, i: nat, x: seq<word>): State
    requires i < 64 && |x| == 16
  {
    State(v.d, Register(i, x, v.a, v.b, v.c, v.d), v.b, v.c)
  }

  /** Step `i` for registers in any roles. */
  function Register(i: nat, x: seq<word>, a: word, b: word, c: word, d: word): word
    requires i < 64 && |x| == 16
  {
    Turn(Mix(i / 16, b, c, d), a, b, x[Index(i)], Shift(i), Sine(i))
  }

  /** After four steps every register is back in its role. */
  lemma FourSteps(v: State, x: seq<word>, i: nat)
    requires i + 4 <= 64 && |x| == 16
    ensures var w := Steps(v, x, i);
            var a := Register(i, x, w.a, w.b, w.c, w.d);
            var d := Register(i + 1, x, w.d, a, w.b, w.c);
            var c := Register(i + 2, x, w.c, d, a, w.b);
            var b := Register(i + 3, x, w.b, c, d, a);
            Steps(v, x, i + 4) == State(a, b, c, d)
  {
    hide Register;
    assert Steps(v, x, i + 1) == Step(Steps(v, x, i), i, x);
    assert Steps(v, x, i + 2) == Step(Steps(v, x, i + 1), i + 1, x);
    assert Steps(v, x, i + 3) == Step(Steps(v, x, i + 2), i + 2, x);
  }

  /** The steps below `n`. */
  function Steps(v: State, x: seq<word>, n: nat): State
    requires n <= 64 && |x| == 16
  {
    if n == 0 then v else Step(Steps(v, x, n - 1), n - 1, x)
  }

  function Compress(v: State, x: seq<word>): State
    requires |x| == 16
  {
    var w := Steps(v, x, 64);
    State(Add(v.a, w.a), Add(v.b, w.b), Add(v.c, w.c), Add(v.d, w.d))
  }

  // ---- Sections 3.1 to 3.3 and 3.5

  const INITIAL := State(0x67452301, 0xefcdab89, 0x98badcfe, 0x10325476)

  /** Four bytes, low-order byte first. */
  function Word(a: byte, b: byte, c: byte, d: byte): word {
    ((d as word) << 24) | ((c as word) << 16) | ((b as word) << 8) | (a as word)
  }

  function Words(b: seq<byte>): (r: seq<word>)
    requires |b| % 4 == 0
    ensures |r| == |b| / 4
  {
    seq(|b| / 4, i requires 0 <= i < |b| / 4 => Word(b[4 * i], b[4 * i + 1], b[4 * i + 2], b[4 * i + 3]))
  }

  function Zeros(n: nat): (r: seq<byte>)
    ensures |r| == n
  {
    seq(n, _ => 0)
  }

  /** How many bytes of padding a message of `n` bytes gets. */
  function PadLength(n: nat): (k: nat)
    ensures 1 <= k <= 64 && (n + k) % 64 == 56
  {
    if n % 64 < 56 then 56 - n % 64 else 120 - n % 64
  }

  function Padding(n: nat): (r: seq<byte>)
    ensures |r| == PadLength(n)
  {
    [0x80] + Zeros(PadLength(n) - 1)
  }

  /** The number of bits, modulo 2^64, as two words. */
  function LengthWords(n: nat): (r: seq<word>)
    ensures |r| == 2
  {
    [(8 * n % TWO32) as word, (8 * n / TWO32 % TWO32) as word]
  }

  /** The padded message. */
  function Padded(m: seq<byte>): (r: seq<word>)
    ensures |r| % 16 == 0
  {
    var p := m + Padding(|m|);
    PaddedSize(|p|);
    Words(p) + LengthWords(|m|)
  }

  lemma PaddedSize(n: nat)
    requires n % 64 == 56
    ensures n % 4 == 0 && (n / 4 + 2) % 16 == 0
  {
    var q := n / 64;
    assert n == 4 * (16 * q + 14);
    assert n / 4 == 16 * q + 14;
  }

  function Chain(v: State, x: seq<word>): State
    requires |x| % 16 == 0
    decreases |x|
  {
    if x == [] then v else Compress(Chain(v, x[..|x| - 16]), x[|x| - 16..])
  }

  /** The four words of the hash. */
  function Md5(m: seq<byte>): State { Chain(INITIAL, Padded(m)) }

  function Bytes(w: word): (r: seq<byte>)
    ensures |r| == 4
  {
    [(w & 0xff) as byte, ((w >> 8) & 0xff) as byte, ((w >> 16) & 0xff) as byte, ((w >> 24) & 0xff) as byte]
  }

  function Digest(v: State): (r: seq<byte>)
    ensures |r| == 16
  {
    Bytes(v.a) + Bytes(v.b) + Bytes(v.c) + Bytes(v.d)
  }

  /** A word is its four bytes. */
  lemma WordOfBytes(w: word)
    ensures Word(Bytes(w)[0], Bytes(w)[1], Bytes(w)[2], Bytes(w)[3]) == w
  {
  }

  /** Different states have different digests. */
  lemma DigestInjective(v: State, w: State)
    ensures Digest(v) == Digest(w) <==> v == w
  {
    hide Bytes, Word;
    WordOfBytes(v.a);
    WordOfBytes(v.b);
    WordOfBytes(v.c);
    WordOfBytes(v.d);
    WordOfBytes(w.a);
    WordOfBytes(w.b);
    WordOfBytes(w.c);
    WordOfBytes(w.d);
    if Digest(v) == Digest(w) {
      assert Digest(v)[..4] == Bytes(v.a) && Digest(w)[..4] == Bytes(w.a);
      assert Digest(v)[4..8] == Bytes(v.b) && Digest(w)[4..8] == Bytes(w.b);
      assert Digest(v)[8..12] == Bytes(v.c) && Digest(w)[8..12] == Bytes(w.c);
      assert Digest(v)[12..] == Bytes(v.d) && Digest(w)[12..] == Bytes(w.d);
    }
  }

  lemma WordsAppend(a: seq<byte>, b: seq<byte>)
    requires |a| % 4 == 0 && |b| % 4 == 0
    ensures Words(a + b) == Words(a) + Words(b)
  {
    hide Word;
    var n := |a| / 4;
    forall i | 0 <= i < |a + b| / 4 ensures Words(a + b)[i] == (Words(a) + Words(b))[i] {
      if i >= n {
        assert (a + b)[4 * i] == b[4 * (i - n)] && (a + b)[4 * i + 1] == b[4 * (i - n) + 1];
        assert (a + b)[4 * i + 2] == b[4 * (i - n) + 2] && (a + b)[4 * i + 3] == b[4 * (i - n) + 3];
      }
    }
  }

  lemma {:induction false} ChainAppend(v: State, x: seq<word>, y: seq<word>)
    requires |x| % 16 == 0 && |y| == 16
    ensures Chain(v, x + y) == Compress(Chain(v, x), y)
  {
    hide Compress;
    assert (x + y)[..|x|] == x && (x + y)[|x|..] == y;
  }
}
