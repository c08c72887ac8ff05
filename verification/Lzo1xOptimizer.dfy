/** The in-place LZO1X optimizer: it decodes a stream into `outb` and, on the way, rewrites the
    stream itself without changing what the stream decodes to. */
module Lzo1xOptimizer {
  import opened Basics
  import opened LzCopy
  import opened Lzo1xFormat
  import opened Lzo1xRewrite
  import opened Lzo1xInvariant
  import opened Lzo1xPeephole
  import opened Lzo1xTrace

  const NO_LIT := -1
  const NULL := -1

  datatype Status = Ok | EofNotFound | InputNotConsumed | InputOverrun

  class Optimizer {
    const inb: array<octet>
    const outb: array<octet>
    var ip: nat
    var op: nat
    var litp: int
    var lit: nat
    var nextLit: int
    var at: Mode               // from which of the nested loops the next opcode is read
    ghost const orig: seq<octet>
    ghost const data: seq<octet>
    ghost var modeN: Mode
    ghost var ms: nat
    ghost var sm: State
    ghost var before: seq<octet>     // what is written for good
    ghost var last: Option<Instr>    // the instruction in front of the next one, which may still change

    constructor (inb: array<octet>, outb: array<octet>, ghost data: seq<octet>)
      requires inb != outb && Decode(inb[..]) == Some(data) && |data| <= outb.Length
      ensures this.inb == inb && this.outb == outb && orig == inb[..] && this.data == data
      ensures ip == 0 && at == Start && modeN == Start && litp < 0 && Valid(0) && last.None? && before == []
    {
      hide Follows;
      this.inb, this.outb, this.orig, this.data := inb, outb, inb[..], data;
      ip, op, litp, lit, nextLit, at := 0, 0, NULL, 0, NO_LIT, Start;
      modeN, ms, sm, before, last := Start, 0, INIT, [], None;
      new;
      FollowsStart(orig);
      assert orig[0..] == orig;
      assert outb[..0] == [];
      assert inb[..][..0] == [];
    }

    ghost function Now(): View
      requires op <= outb.Length
      reads this, inb, outb
    {
      View(inb[..], outb[..op], at, modeN, litp, lit, ms, sm)
    }

    /** The next instruction starts at `p`. */
    ghost predicate Valid(p: nat)
      reads this, inb, outb
    {
      && inb != outb && op <= outb.Length && |data| <= outb.Length && nextLit == NO_LIT
      && Inv(Now(), orig, data, p) && p < inb.Length && Tracks(Now(), orig, p, before, last)
    }

    /** `do *op++ = *ip++; while (--t > 0)` */
    method CopyLiterals(n: nat)
      requires inb != outb && ip + n <= inb.Length && op + n <= outb.Length
      modifies this`ip, this`op, outb
      ensures ip == old(ip) + n && op == old(op) + n
      ensures outb[..op] == old(outb[..op]) + inb[..][old(ip)..ip]
    {
      var t := n;
      ghost var o, i0, b := outb[..op], ip, inb[..];
      while t > 0
        invariant 0 <= t <= n && ip == old(ip) + n - t && op == old(op) + n - t
        invariant outb[..op] == o + b[i0..ip]
      {
        outb[op] := inb[ip];
        assert outb[..op + 1] == outb[..op] + [b[ip]];
        assert b[i0..ip + 1] == b[i0..ip] + [b[ip]];
        op, ip, t := op + 1, ip + 1, t - 1;
      }
    }

    /** `*op++ = *m_pos++` `n` times. */
    method CopyBack(off: nat, n: nat)
      requires 1 <= off <= op && op + n <= outb.Length && inb != outb
      modifies this`op, outb
      ensures op == old(op) + n
      ensures outb[..op] == Copy(old(outb[..op]), off, n)
    {
      hide Copy;
      var m, t := op - off, n;
      ghost var o := outb[..op];
      while t > 0
        invariant 0 <= t <= n && op == old(op) + n - t && m == op - off
        invariant Copy(outb[..op], off, t) == Copy(o, off, n)
      {
        CopyNext(outb[..op], off, t);
        outb[op] := outb[m];
        assert outb[..op + 1] == outb[..op] + [outb[..op][op - off]];
        op, m, t := op + 1, m + 1, t - 1;
      }
      CopyNone(outb[..op], off);
    }

    /** The length field of the instruction that starts at `p`. */
    method ReadLength(ghost p: nat, t0: nat, base: nat) returns (t: nat)
      requires p + 1 == ip <= inb.Length
      requires Length(inb[..][p..], t0, base).Some?
      modifies this`ip
      ensures Length(inb[..][p..], t0, base) == Some((t, ip - p)) && p < ip <= inb.Length
    {
      t := t0;
      if t == 0 {
        t := base;
        ghost var b := inb[..][p..];
        ghost var e := Extension(b, 1).value;
        while inb[ip] == 0
          invariant p < ip < inb.Length && base <= t
          invariant Extension(b, ip - p).Some?
          invariant Extension(b, ip - p).value == (e.0 - (t - base), e.1)
          decreases inb.Length - ip
        {
          t, ip := t + 255, ip + 1;
        }
        t, ip := t + inb[ip], ip + 1;
      }
    }

    /** copy2() and copy3(): the bytes the match would copy, written into the input. */
    method CopyInto(pos: nat, off: nat, n: nat) returns (ghost w: seq<octet>)
      requires inb != outb && (n == 2 || n == 3) && pos + n <= inb.Length
      requires 1 <= off <= op <= outb.Length
      modifies inb
      ensures |w| == n && outb[..op] + w == Copy(outb[..op], off, n)
      ensures forall i :: 0 <= i < n ==> inb[pos + i] == w[i]
      ensures forall i :: 0 <= i < inb.Length && !(pos <= i < pos + n) ==> inb[i] == old(inb[i])
    {
      hide Copy;
      var m := op - off;
      ghost var o := outb[..op];
      inb[pos] := outb[m];
      if n == 2 {
        if off == 1 {
          inb[pos + 1] := outb[m];
        } else {
          inb[pos + 1] := outb[m + 1];
        }
        w := [inb[pos], inb[pos + 1]];
        CopyTwo(o, off);
      } else {
        if off == 1 {
          inb[pos + 1], inb[pos + 2] := outb[m], outb[m];
        } else if off == 2 {
          inb[pos + 1], inb[pos + 2] := outb[m + 1], outb[m];
        } else {
          inb[pos + 1], inb[pos + 2] := outb[m + 1], outb[m + 2];
        }
        w := [inb[pos], inb[pos + 1], inb[pos + 2]];
        CopyThree(o, off);
      }
    }

    /** The literals at the end of an instruction are written out, and the next one is read in mode `m`. */
    method EndLiterals(n: nat, m: Mode, ghost start: nat, ghost s: State, ghost done: seq<octet>, ghost i: Instr)
      requires inb != outb && ip + n < inb.Length && op + n <= |data| <= outb.Length && nextLit == NO_LIT
      requires Inv(View(inb[..], outb[..op] + inb[..][ip..ip + n], m, m, litp, lit, start, s), orig, data, ip + n)
      requires Follows(inb[..], orig, ip + n, State(m, outb[..op] + inb[..][ip..ip + n]), litp, lit, done, Some(i))
      modifies this`ip, this`op, this`at, this`modeN, this`ms, this`sm, this`before, this`last, outb
      ensures Valid(ip) && ip == old(ip) + n && at == m
    {
      hide Inv, Follows;
      CopyLiterals(n);
      at, modeN, ms, sm, before, last := m, m, start, s, done, Some(i);
    }

    /** Labels `copy_m` or `copy_m1`, then `match_done` and `match_next`: an instruction that is
        not rewritten. */
    method PlainMatch(ghost p: nat, off: nat, n: nat)
      requires Valid(p) && p < ip && MatchNext(Now(), p, Header(ip - p, off, n)) && off >= 1 && ip - p >= 2
      requires RuleAt(orig, p, State(at, outb[..op]), last) == Keep
      modifies this, outb
      ensures Valid(ip) && ip > p
    {
      hide Inv, MatchNext, Copy, Follows, RuleAt, LastBytes;
      ghost var v := Now();
      PlainKeeps(v, orig, data, p, Header(ip - p, off, n));
      ghost var i := PlainTracks(v, orig, data, p, Header(ip - p, off, n), before, last);
      CopyBack(off, n);
      var t := inb[ip - 2] % 4;
      lit, litp := t, ip - 2;
      EndLiterals(t, AfterLits(t), p, State(modeN, v.out), before + LastBytes(last), i);
    }

    /** The byte edits of o_m1_a and o_m3_a. */
    method WidenBytes(ghost p: nat, off: nat, n: nat) returns (ghost w: seq<octet>)
      requires inb != outb && (n == 2 || n == 3) && 1 <= off <= op <= outb.Length
      requires 0 <= litp < p && ip == p + n <= inb.Length && lit + n == 3
      modifies this`lit, inb
      ensures |w| == n && outb[..op] + w == Copy(outb[..op], off, n) && lit == 3
      ensures WidenEdit(old(inb[..]), inb[..], litp, p, n, w)
    {
      hide Copy;
      lit := lit + n;
      inb[litp] := inb[litp] / 4 * 4 + lit;
      w := CopyInto(ip - n, off, n);
    }

    /** o_m1_a and o_m3_a: the match becomes literals of the match before it. */
    method Widen(ghost p: nat, off: nat, n: nat)
      requires Valid(p) && ip == p + n && MatchNext(Now(), p, Header(n, off, n))
      requires (n == 2 || n == 3) && litp >= 0 && lit + n == 3 && 1 <= off <= op
      requires ip < inb.Length && inb[ip - 2] % 4 == 0 && inb[ip] >= 16
      requires RuleAt(orig, p, State(at, outb[..op]), last) == Action.Widen
      modifies this, inb, outb
      ensures Valid(ip) && ip > p
    {
      hide Inv, MatchNext, Copy, WidenEdit, Follows, RuleAt;
      ghost var v := Now();
      nextLit := 0;
      LastBounds(v, orig, data, p);
      ghost var w := WidenBytes(p, off, n);
      WidenKeeps(v, orig, data, p, off, n, w, inb[..]);
      ghost var i := WidenTracks(v, orig, data, p, off, n, w, inb[..], before, last);
      last := Some(i);
      CopyBack(off, n);
      at, modeN, nextLit := AfterMatch, AfterShort, NO_LIT;
    }

    /** memmove(at + 1, at, n) */
    method MoveUp(pos: nat, n: nat)
      requires pos + n < inb.Length
      modifies inb
      ensures forall i :: pos <= i < pos + n ==> inb[i + 1] == old(inb[i])
      ensures forall i :: 0 <= i < inb.Length && !(pos < i <= pos + n) ==> inb[i] == old(inb[i])
    {
      var k := n;
      while k > 0
        invariant 0 <= k <= n
        invariant forall i :: pos + k <= i < pos + n ==> inb[i + 1] == old(inb[i])
        invariant forall i :: 0 <= i < inb.Length && !(pos + k < i <= pos + n) ==> inb[i] == old(inb[i])
      {
        k := k - 1;
        inb[pos + k + 1] := inb[pos + k];
      }
    }

    /** The byte edits of o_m1_b and o_m3_b; `ip` is already behind the run code `r`. */
    method LongRunBytes(ghost p: nat, off: nat, n: nat, r: nat) returns (ghost w: seq<octet>)
      requires inb != outb && (n == 2 || n == 3) && 1 <= off <= op <= outb.Length
      requires litp >= 0 && p == litp + 2 + lit && ip == p + n + 1 <= inb.Length && lit + n + r < 16
      modifies this`litp, this`lit, inb
      ensures |w| == n && outb[..op] + w == Copy(outb[..op], off, n)
      ensures litp == old(litp) + 2 && lit == old(lit) + n + r + 3
      ensures LongRunEdit(old(inb[..]), inb[..], old(litp), old(lit), p, n, w, r)
    {
      hide Copy, LongRunEdit;
      ghost var b := inb[..];
      inb[litp] := inb[litp] / 4 * 4;
      w := CopyInto(ip - n, off, n);
      ghost var c := inb[..];
      litp := litp + 2;
      if lit > 0 {
        MoveUp(litp, lit);
      }
      ghost var d := inb[..];
      LongRunMoved(b, c, d, litp - 2, lit, p, n, w, r);
      lit := lit + n + r + 3;
      inb[litp] := lit - 3;
      assert inb[..] == d[litp := inb[litp]];
    }

    /** The end of o_m1_b, o_m3_b and o_m2: the match and the literals behind it are written out. */
    method RunEnd(off: nat, n: nat, r: nat, ghost w: seq<octet>, ghost start: nat, ghost s: State, ghost done: seq<octet>, ghost i: Instr)
      requires inb != outb && 1 <= off <= op && ip + r + 3 < inb.Length && op + n + r + 3 <= |data| <= outb.Length
      requires outb[..op] + w == Copy(outb[..op], off, n) && nextLit == NO_LIT
      requires Inv(View(inb[..], outb[..op] + w + inb[..][ip..ip + r + 3], AfterRun, AfterRun, litp, lit, start, s), orig, data, ip + r + 3)
      requires Follows(inb[..], orig, ip + r + 3, State(AfterRun, outb[..op] + w + inb[..][ip..ip + r + 3]), litp, lit, done, Some(i))
      modifies this`ip, this`op, this`at, this`modeN, this`ms, this`sm, this`before, this`last, outb
      ensures Valid(ip) && ip == old(ip) + r + 3
    {
      hide Inv, Copy, Follows;
      CopyBack(off, n);
      EndLiterals(3 + r, AfterRun, start, s, done, i);
    }

    /** o_m1_b and o_m3_b: the match and the literals around it become one long run. */
    method LongRun(ghost p: nat, off: nat, n: nat)
      requires Valid(p) && ip == p + n && MatchNext(Now(), p, Header(n, off, n))
      requires (n == 2 || n == 3) && 0 <= litp && lit <= 3 && 1 <= off <= op
      requires ip < inb.Length && inb[ip - 2] % 4 == 0 && 0 < inb[ip] < 16 && lit + n + inb[ip] < 16
      requires RuleAt(orig, p, State(at, outb[..op]), last) == NewRun
      modifies this, inb, outb
      ensures Valid(ip) && ip > p
    {
      hide Inv, MatchNext, Copy, LongRunEdit, Follows, RuleAt, Relit;
      ghost var v := Now();
      LastBounds(v, orig, data, p);
      var r := inb[ip];
      ip := ip + 1;
      ghost var w := LongRunBytes(p, off, n, r);
      ghost var s := LongRunKeeps(v, orig, data, p, off, n, w, r, inb[..]);
      ghost var i := NewRunTracks(v, orig, data, p, off, n, w, r, inb[..], before, last);
      RunEnd(off, n, r, w, litp, s, before + Relit(last.value.head, 0), i);
    }

    /** o_m2: the match between two long runs joins them. */
    method Join(ghost p: nat, off: nat)
      requires Valid(p) && ip == p + 2 && MatchNext(Now(), p, Header(2, off, 3))
      requires 0 <= litp && lit > 3 && 1 <= off <= op
      requires ip < inb.Length && inb[ip - 2] % 4 == 0 && 0 < inb[ip] < 16 && lit + 3 + inb[ip] < 16
      requires RuleAt(orig, p, State(at, outb[..op]), last) == Action.Join
      modifies this, inb, outb
      ensures Valid(ip) && ip > p
    {
      hide Inv, MatchNext, Copy, Follows, RuleAt;
      ghost var v := Now();
      LastBounds(v, orig, data, p);
      var r := inb[ip];
      ip := ip + 1;
      ghost var w := CopyInto(ip - 3, off, 3);
      lit := lit + 3 + r + 3;
      inb[litp] := lit - 3;
      JoinKeeps(v, orig, data, p, off, w, r, inb[..]);
      assert inb[..][ip..ip + r + 3] == v.b[ip..ip + r + 3];
      ghost var i := JoinTracks(v, orig, data, p, off, w, r, inb[..], before, last);
      RunEnd(off, 3, r, w, ms, sm, before, i);
    }

    /** A literal run, opcode below 16 at the top of the outer loop. */
    method LiteralRun()
      requires Valid(ip) && inb[ip] < 16 && (at == Start || at == AfterMatch)
      modifies this, outb
      ensures Valid(ip) && ip > old(ip)
    {
      hide Inv, Length, Follows, LastBytes;
      ghost var p, v := ip, Now();
      assert v.b[p..][0] == v.b[p];
      RunThere(v, orig, data, p);
      var t: nat := inb[ip];
      ip := ip + 1;
      litp := ip - 1;
      t := ReadLength(p, t, 15);
      lit := t + 3;
      RunKeeps(v, orig, data, p, (t, ip - p));
      ghost var i := RunTracks(v, orig, data, p, (t, ip - p), before, last);
      EndLiterals(3 + t, AfterRun, p, State(modeN, v.out), before + LastBytes(last), i);
    }

    /** Opcode below 16 behind a literal run: a match of three bytes, never rewritten. */
    method FarM1()
      requires Valid(ip) && inb[ip] < 16 && at == AfterRun
      modifies this, outb
      ensures Valid(ip) && ip > old(ip)
    {
      hide Inv, ParseMatch, Follows, RuleAt;
      ghost var p, v := ip, Now();
      MatchThere(v, orig, data, p);
      var t: int := inb[ip];
      ip := ip + 1;
      var off := 1 + 0x800 + t / 4;
      var u: int := inb[ip];
      off := off + u * 4;
      ip := ip + 1;
      ShortHeader(v.b, p, at, t, u);
      RuleIs(v, orig, data, p, Header(2, off, 3), before, last);
      PlainMatch(p, off, 3);
    }

    /** Opcode below 16 behind a match with literals: a match of two bytes. */
    method M1()
      requires Valid(ip) && inb[ip] < 16 && at == AfterShort
      modifies this, inb, outb
      ensures Valid(ip) && ip > old(ip)
    {
      hide Inv, ParseMatch, Follows, RuleAt;
      ghost var p, v := ip, Now();
      MatchThere(v, orig, data, p);
      var t: int := inb[ip];
      ip := ip + 1;
      var off := 1 + t / 4;
      var u: int := inb[ip];
      off := off + u * 4;
      ip := ip + 1;
      ShortHeader(v.b, p, at, t, u);
      RuleIs(v, orig, data, p, Header(2, off, 2), before, last);
      if litp < 0 {
        PlainMatch(p, off, 2);
        return;
      }
      LastBounds(v, orig, data, p);
      PlainFacts(v, orig, data, p, Header(2, off, 2));
      var nl := inb[ip - 2] % 4;
      if nl == 0 && lit == 1 && inb[ip] >= 16 {
        Widen(p, off, 2);
      } else if nl == 0 && inb[ip] < 16 && inb[ip] != 0 && lit + 2 + inb[ip] < 16 {
        LongRun(p, off, 2);
      } else {
        PlainMatch(p, off, 2);
      }
    }

    /** Opcode from 64 up. */
    method M2()
      requires Valid(ip) && inb[ip] >= 64 && at != Start
      modifies this, inb, outb
      ensures Valid(ip) && ip > old(ip)
    {
      hide Inv, ParseMatch, Follows, RuleAt;
      ghost var p, v := ip, Now();
      MatchThere(v, orig, data, p);
      var t: int := inb[ip];
      ip := ip + 1;
      var off := 1 + t / 4 % 8;
      var u: int := inb[ip];
      off := off + u * 8;
      ip := ip + 1;
      ShortHeader(v.b, p, at, t, u);
      t := t / 32 - 1;
      RuleIs(v, orig, data, p, Header(2, off, t + 2), before, last);
      if litp < 0 {
        PlainMatch(p, off, t + 2);
        return;
      }
      PlainFacts(v, orig, data, p, Header(2, off, t + 2));
      var nl := inb[ip - 2] % 4;
      if t == 1 && lit > 3 && nl == 0 && inb[ip] < 16 && inb[ip] != 0 && lit + 3 + inb[ip] < 16 {
        Join(p, off);
      } else {
        PlainMatch(p, off, t + 2);
      }
    }

    /** Opcodes 16 to 63: the M3 and M4 matches and the end marker. */
    method M3M4() returns (eof: bool)
      requires Valid(ip) && 16 <= inb[ip] < 64 && (at == Start ==> inb[ip] <= 17)
      modifies this, inb, outb
      ensures !eof ==> Valid(ip) && ip > old(ip)
      ensures eof ==> op <= outb.Length && outb[..op] == data && Decode(inb[..]) == Some(data) && ip == inb.Length
      ensures eof ==> inb[..] == Optimized(orig)
    {
      hide Inv, Length, ParseMatch, Decode, Follows, RuleAt, Optimized;
      ghost var p, v := ip, Now();
      MatchThere(v, orig, data, p);
      var t: nat := inb[ip];
      ghost var t0: nat := t;
      LongLength(v.b, p, at, t);
      ip := ip + 1;
      var off, m3 := 1, t >= 32;
      if m3 {
        t := ReadLength(p, t % 32, 31);
      } else {
        off := t / 8 % 2 * 0x4000;
        t := ReadLength(p, t % 8, 7);
      }
      var lo: int, hi: int := inb[ip], inb[ip + 1];
      LongHeader(v.b, p, at, t0, (t, ip - p), lo, hi);
      off, ip := off + lo / 4 + hi * 64, ip + 2;
      if !m3 {
        if off == 0 {
          MarkerEnds(v, orig, data, p, Marker(ip - p));
          MarkerTracks(v, orig, data, p, Marker(ip - p), before, last);
          return true;
        }
        off := off + 0x4000;
      }
      eof := false;
      Long(p, off, t);
    }

    /** What the M3 and M4 matches do once `t` and the distance are read. */
    method Long(ghost p: nat, off: nat, t: nat)
      requires Valid(p) && p < ip && MatchNext(Now(), p, Header(ip - p, off, t + 2)) && off >= 1 && ip - p >= 3
      requires (t == 1 ==> ip == p + 3) && 16 <= inb[p] < 64
      modifies this, inb, outb
      ensures Valid(ip) && ip > p
    {
      hide Inv, MatchNext, Follows, RuleAt;
      RuleIs(Now(), orig, data, p, Header(ip - p, off, t + 2), before, last);
      if litp < 0 {
        PlainMatch(p, off, t + 2);
        return;
      }
      PlainFacts(Now(), orig, data, p, Header(ip - p, off, t + 2));
      var nl := inb[ip - 2] % 4;
      if t == 1 && lit == 0 && nl == 0 && inb[ip] >= 16 {
        Widen(p, off, 3);
      } else if t == 1 && lit <= 3 && nl == 0 && inb[ip] < 16 && inb[ip] != 0 && lit + 3 + inb[ip] < 16 {
        LongRun(p, off, 3);
      } else {
        PlainMatch(p, off, t + 2);
      }
    }

    /** The literals that open a stream whose first byte is above 17. */
    method Opening()
      requires Valid(0) && ip == 0 && at == Start && modeN == Start && inb[0] > 17 && litp < 0 && last.None? && before == []
      modifies this, outb
      ensures Valid(ip) && ip > 0 && at != Start
    {
      hide Inv, Follows;
      OpeningKeeps(Now(), orig, data);
      ghost var i := OpeningTracks(Now(), orig, data, before, last);
      var t := inb[ip] - 17;
      ip := ip + 1;
      EndLiterals(t, if t < 4 then AfterShort else AfterRun, ms, sm, [], i);
    }
  }

  lemma NotStart(v: View, orig: seq<octet>, data: seq<octet>, p: nat)
    requires Inv(v, orig, data, p) && p > 0
    ensures v.at in {AfterMatch, AfterShort, AfterRun}
  {
    hide Run, MatchAt, RunAt;
  }

  /** For every valid stream the optimizer succeeds, leaves the decoded bytes in `outb`, and the
      rewritten stream, of the same length, still decodes to them. It is the byte form of the instructions
      of the old stream, rewritten by the rules. */
  method Optimize(inb: array<octet>, outb: array<octet>) returns (status: Status, outLen: nat)
    requires inb != outb && Decode(inb[..]).Some? && |Decode(inb[..]).value| <= outb.Length
    modifies inb, outb
    ensures status == Ok
    ensures outLen == |Decode(old(inb[..])).value| && outb[..outLen] == Decode(old(inb[..])).value
    ensures Decode(inb[..]) == Decode(old(inb[..])) && inb[..] == Optimized(old(inb[..]))
  {
    hide Inv, Decode, Follows, Optimized;
    ghost var data := Decode(inb[..]).value;
    var o := new Optimizer(inb, outb, data);
    if inb[0] > 17 {
      o.Opening();
    }
    var ip, op := o.ip, o.op;
    while ip < inb.Length && op <= outb.Length
      invariant ip == o.ip && op == o.op
      invariant o.inb == inb && o.outb == outb && o.data == data && o.orig == old(inb[..])
      invariant o.Valid(o.ip)
      invariant o.ip == 0 ==> o.at == Start && inb[0] <= 17
      decreases inb.Length - o.ip
    {
      if o.ip > 0 {
        NotStart(o.Now(), o.orig, data, o.ip);
      }
      var t := inb[o.ip];
      if t >= 64 {
        o.M2();
      } else if t >= 16 {
        var eof := o.M3M4();
        if eof {
          var end := inb.Length;
          ip := o.ip;
          outLen := o.op;
          status := if ip == end then Ok else if ip < end then InputNotConsumed else InputOverrun;
          return;
        }
      } else if o.at == AfterRun {
        o.FarM1();
      } else if o.at == AfterShort {
        o.M1();
      } else {
        o.LiteralRun();
      }
      ip, op := o.ip, o.op;
    }
    // A valid stream ends with the marker, so EofNotFound is never returned.
    assert false;
  }
}
