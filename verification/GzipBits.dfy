/** The bit buffer and the output buffer of the compressor. */
module GzipBits {
  import opened Basics
  import opened BitString

  const OUTBUFSIZ := 8192
  const BUF_SIZE := 16

  /** The bits of a byte string, in the order in which a deflate decoder reads them. */
  function ByteBits(b: seq<octet>): (r: seq<bool>)
    ensures |r| == 8 * |b|
  {
    if b == [] then [] else ByteBits(b[..|b| - 1]) + Bits(b[|b| - 1], 8)
  }

  lemma ByteBitsAppend(b: seq<octet>, x: octet)
    ensures ByteBits(b + [x]) == ByteBits(b) + Bits(x, 8)
  {
    assert (b + [x])[..|b|] == b;
  }

  lemma TwoBytes(b: seq<octet>, w: nat)
    requires w < 0x10000
    ensures ByteBits(b + [w % 256, w / 256]) == ByteBits(b) + Bits(w, 16)
  {
    hide Bits;
    assert b + [w % 256, w / 256] == (b + [w % 256]) + [w / 256];
    ByteBitsAppend(b, w % 256);
    ByteBitsAppend(b + [w % 256], w / 256);
    assert Pow2(8) == 256;
    BitsConcat(w % 256, 8, w / 256, 8);
    var x, y, z := ByteBits(b), Bits(w % 256, 8), Bits(w / 256, 8);
    assert (x + y) + z == x + (y + z);
  }

  /** What is sent when the new bits do not fit the bit buffer: `w` leaves it, the rest stays. */
  lemma Spill(x: nat, v: nat, y: nat, n: nat, w: nat)
    requires v <= 16 <= v + n && n <= 16 && x < Pow2(v) && y < Pow2(n)
    requires w == (x + y * Pow2(v)) % 0x10000
    ensures Shr(y, 16 - v) < Pow2(v + n - 16)
    ensures Bits(x, v) + Bits(y, n) == Bits(w, 16) + Bits(Shr(y, 16 - v), v + n - 16)
  {
    hide Bits, Pow2, Low, Shr;
    var s := 16 - v;
    var lo, hi := Low(y, s), Shr(y, s);
    Pow2Add(v, s);
    SixteenBits();
    LowHigh(y, s);
    BitsConcat(x, v, lo, s);
    BitsSplit(y, s, n - s);
    ShrBound(y, s, n - s);
    SpillSum(x, Pow2(v), Pow2(s), lo, hi, y);
    assert Bits(x, v) + (Bits(lo, s) + Bits(hi, n - s)) == (Bits(x, v) + Bits(lo, s)) + Bits(hi, n - s);
  }

  lemma SpillSum(x: nat, p: nat, q: nat, lo: nat, hi: nat, y: nat)
    requires y == lo + hi * q && p * q == 0x10000 && x + lo * p < 0x10000
    ensures (x + y * p) % 0x10000 == x + lo * p
  {
    assert y * p == lo * p + hi * q * p;
    assert hi * q * p == hi * (p * q);
  }

  lemma SixteenBits()
    ensures Pow2(16) == 0x10000
  {
    Pow2Add(8, 8);
    assert Pow2(8) == 256;
  }

  class BitWriter {
    const outbuf: array<octet>
    var outcnt: nat
    var written: seq<octet>    // what xwrite() was given
    var biBuf: nat
    var biValid: nat

    ghost predicate Valid()
      reads this, outbuf
    {
      outbuf.Length == OUTBUFSIZ && outcnt < OUTBUFSIZ && biValid <= BUF_SIZE && biBuf < Pow2(biValid)
    }

    ghost function Bytes(): seq<octet>
      requires outcnt <= outbuf.Length
      reads this, outbuf
    {
      written + outbuf[..outcnt]
    }

    /** All bits sent so far. */
    ghost function Sent(): seq<bool>
      requires Valid()
      reads this, outbuf
    {
      ByteBits(Bytes()) + Bits(biBuf, biValid)
    }

    constructor ()
      ensures Valid() && Sent() == [] && fresh(outbuf) && Bytes() == [] && biValid == 0
    {
      outbuf := new octet[OUTBUFSIZ](_ => 0);
      outcnt, written, biBuf, biValid := 0, [], 0, 0;
    }

    method FlushOutbuf()
      requires outbuf.Length == OUTBUFSIZ && outcnt <= OUTBUFSIZ
      modifies this`outcnt, this`written
      ensures outcnt == 0 && Bytes() == old(Bytes())
    {
      if outcnt == 0 {
        return;
      }
      written := written + outbuf[..outcnt];
      outcnt := 0;
    }

    method Put8(c: nat)
      requires outbuf.Length == OUTBUFSIZ && outcnt < OUTBUFSIZ
      modifies this`outcnt, this`written, outbuf
      ensures outcnt < OUTBUFSIZ && Bytes() == old(Bytes()) + [c % 256]
    {
      ghost var b := Bytes();
      outbuf[outcnt] := c % 256;
      outcnt := outcnt + 1;
      assert Bytes() == b + [c % 256];
      if outcnt == OUTBUFSIZ {
        FlushOutbuf();
      }
    }

    method Put16(w: nat)
      requires outbuf.Length == OUTBUFSIZ && outcnt < OUTBUFSIZ && w < 0x10000
      modifies this`outcnt, this`written, outbuf
      ensures outcnt < OUTBUFSIZ && Bytes() == old(Bytes()) + [w % 256, w / 256]
    {
      if outcnt < OUTBUFSIZ - 2 {
        outbuf[outcnt] := w % 256;
        outcnt := outcnt + 1;
        outbuf[outcnt] := w / 256;
        outcnt := outcnt + 1;
      } else {
        Put8(w);
        Put8(w / 256);
      }
    }

    /** send_bits: `length` bits of `value` are sent. */
    method SendBits(value: nat, length: nat)
      requires Valid() && length <= 16 && value < Pow2(length)
      modifies this, outbuf
      ensures Valid() && Sent() == old(Sent()) + Bits(value, length)
    {
      hide Bits, Pow2, ByteBits;
      ghost var b, x, v := Bytes(), biBuf, biValid;
      ghost var y := ByteBits(b) + Bits(x, v) + Bits(value, length);
      assert ByteBits(b) + Bits(x, v) + Bits(value, length) == ByteBits(b) + (Bits(x, v) + Bits(value, length));
      if biValid > BUF_SIZE - length {
        var w := (biBuf + value * Pow2(biValid)) % 0x10000;
        Spill(biBuf, biValid, value, length, w);
        TwoBytes(b, w);
        Put16(w);
        biBuf := Shr(value, BUF_SIZE - biValid);
        biValid := biValid + length - BUF_SIZE;
        assert ByteBits(b) + (Bits(w, 16) + Bits(biBuf, biValid)) == ByteBits(b) + Bits(w, 16) + Bits(biBuf, biValid);
      } else {
        BitsConcat(biBuf, biValid, value, length);
        biBuf := biBuf + value * Pow2(biValid);
        biValid := biValid + length;
      }
    }

    /** bi_windup: the last byte is filled up with zero bits. */
    method Windup() returns (ghost pad: nat)
      requires Valid()
      modifies this, outbuf
      ensures Valid() && biValid == 0 && pad < 8 && Sent() == ByteBits(Bytes())
      ensures Sent() == old(Sent()) + Bits(0, pad)
    {
      hide Bits, ByteBits, Pow2;
      ghost var b, x, v := Bytes(), biBuf, biValid;
      pad := (16 - v) % 8;
      Pad(b, x, v);
      if biValid > 8 {
        Put16(biBuf);
      } else if biValid > 0 {
        Put8(biBuf);
      }
      biBuf, biValid := 0, 0;
      NoBits(Bytes());
    }
  }

  lemma NoBits(b: seq<octet>)
    ensures Pow2(0) == 1 && ByteBits(b) + Bits(0, 0) == ByteBits(b)
  {
  }

  lemma Pad(b: seq<octet>, x: nat, v: nat)
    requires v <= 16 && x < Pow2(v)
    ensures x < 0x10000 && (v <= 8 ==> x < 256)
    ensures var sent := ByteBits(b) + Bits(x, v) + Bits(0, (16 - v) % 8);
            ByteBits(if v > 8 then b + [x % 256, x / 256] else if v > 0 then b + [x % 256] else b) == sent
  {
    hide Bits, ByteBits;
    var pad := (16 - v) % 8;
    assert Pow2(8) == 256;
    SixteenBits();
    Pow2Monotone(v, if v > 8 then 16 else 8);
    assert ByteBits(b) + Bits(x, v) + Bits(0, pad) == ByteBits(b) + (Bits(x, v) + Bits(0, pad));
    BitsConcat(x, v, 0, pad);
    if v > 8 {
      TwoBytes(b, x);
    } else if v > 0 {
      ByteBitsAppend(b, x);
    } else {
      NoBits(b);
      assert Bits(x, 0) == Bits(0, 0) by { NoneIsNone(x); }
    }
  }

  lemma NoneIsNone(x: nat)
    ensures Bits(x, 0) == []
  {
  }
}
