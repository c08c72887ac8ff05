/** Which encoding a block gets, and what a sequence of blocks consists of. */
module GzipChoice {
  import opened Basics
  import opened Rfc1951
  import opened GzipTally
  import opened GzipPlan
  import opened BlockCode

  /** The codes of a dynamic block: of literals and lengths, of distances, of code lengths, and how many of these are sent. */
  datatype Codes = Codes(ll: seq<nat>, dd: seq<nat>, cl: seq<nat>, k: nat)

  /** They suit the tokens, and no other codes do better, as far as the trees are not too deep. */
  ghost predicate GoodCodes(c: Codes, ts: seq<Token>) {
    && GoodTokens(ts) && StaticGood(ts) && DynamicGood(c.ll, c.dd, c.cl, c.k, ts)
    && Best(LitFreq(ts), c.ll) && Best(DistFreq(ts), c.dd)
  }

  function InBytes(bits: nat): nat { (bits + 7) / 8 }

  /** A block: its tokens and what they stand for, whether these bytes are still in the window, and the bits sent. */
  datatype Piece = Piece(tokens: seq<Token>, data: seq<byte>, inWindow: bool, eof: bool, codes: Codes, bits: seq<bool>)

  ghost function StaticBits(p: Piece): seq<bool>
    requires GoodCodes(p.codes, p.tokens)
  {
    StaticBlock(p.tokens, p.eof)
  }

  ghost function DynamicBits(p: Piece): seq<bool>
    requires GoodCodes(p.codes, p.tokens)
  {
    DynamicBlock(p.codes.ll, p.codes.dd, p.codes.cl, p.codes.k, p.tokens, p.eof)
  }

  /** The bytes as they are, behind up to seven bits of alignment. */
  ghost predicate IsStored(p: Piece) { exists pad: nat :: pad < 8 && p.bits == StoredBlock(p.data, pad, p.eof) }

  /** Stored if that is no longer than both codes and possible; else the static code unless the dynamic one is shorter. */
  ghost predicate Chosen(p: Piece) {
    && GoodCodes(p.codes, p.tokens)
    && (var s, d := InBytes(|StaticBits(p)|), InBytes(|DynamicBits(p)|);
        if p.inWindow && |p.data| + 4 <= s && |p.data| + 4 <= d then IsStored(p)
        else p.bits == if s <= d then StaticBits(p) else DynamicBits(p))
  }

  /** No block is longer in bytes than either code, but for at most ten bits in front of a stored one. */
  lemma NeverLonger(p: Piece)
    requires Chosen(p)
    ensures |p.bits| <= 8 * InBytes(|StaticBits(p)|) + 10 && |p.bits| <= 8 * InBytes(|DynamicBits(p)|) + 10
    ensures !IsStored(p) ==> InBytes(|p.bits|) <= InBytes(|StaticBits(p)|) && InBytes(|p.bits|) <= InBytes(|DynamicBits(p)|)
  {
    hide GoodCodes, StaticBits, DynamicBits;
    if IsStored(p) && p.inWindow && |p.data| + 4 <= InBytes(|StaticBits(p)|) && |p.data| + 4 <= InBytes(|DynamicBits(p)|) {
      var pad: nat :| pad < 8 && p.bits == StoredBlock(p.data, pad, p.eof);
    }
  }

  /** The choice, from the sizes that flush_block computes. */
  lemma Choice(p: Piece, s: nat, d: nat)
    requires GoodCodes(p.codes, p.tokens) && s == InBytes(|StaticBits(p)|) && d == InBytes(|DynamicBits(p)|)
    requires if p.inWindow && |p.data| + 4 <= s && |p.data| + 4 <= d then IsStored(p)
             else p.bits == if s <= d then StaticBits(p) else DynamicBits(p)
    ensures Chosen(p)
  {
    hide GoodCodes, StaticBits, DynamicBits, IsStored;
  }

  ghost function AllBits(log: seq<Piece>): seq<bool> {
    if log == [] then [] else AllBits(log[..|log| - 1]) + log[|log| - 1].bits
  }

  ghost function AllTokens(log: seq<Piece>): seq<Token> {
    if log == [] then [] else AllTokens(log[..|log| - 1]) + log[|log| - 1].tokens
  }

  /** The bits are those of the blocks, each with the right encoding. */
  ghost predicate Logged(log: seq<Piece>, sent: seq<bool>) {
    sent == AllBits(log) && forall i :: 0 <= i < |log| ==> Chosen(log[i])
  }

  lemma LogMore(log: seq<Piece>, sent: seq<bool>, p: Piece)
    requires Logged(log, sent) && Chosen(p)
    ensures Logged(log + [p], sent + p.bits) && AllTokens(log + [p]) == AllTokens(log) + p.tokens
  {
    hide Chosen;
    assert (log + [p])[..|log|] == log;
  }
}
