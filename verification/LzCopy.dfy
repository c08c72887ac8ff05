/** The copy operation of LZ77 decoders. */
module LzCopy {
  /** `n` bytes are copied, one by one, from `dist` bytes back; source and target may overlap. */
  function Copy<T>(out: seq<T>, dist: nat, n: nat): (r: seq<T>)
    requires 1 <= dist <= |out|
    ensures |r| == |out| + n && out <= r
    decreases n
  {
    if n == 0 then out else Copy(out + [out[|out| - dist]], dist, n - 1)
  }

  /** A copy reproduces a text that repeats itself at that distance. */
  lemma {:induction false} CopyOfRepeat<T>(text: seq<T>, p: nat, dist: nat, n: nat)
    requires 1 <= dist <= p && p + n <= |text|
    requires forall i :: p <= i < p + n ==> text[i] == text[i - dist]
    ensures Copy(text[..p], dist, n) == text[..p + n]
    decreases n
  {
    if n == 0 {
    } else {
      assert text[..p + 1] == text[..p] + [text[..p][p - dist]];
      CopyOfRepeat(text, p + 1, dist, n - 1);
    }
  }
}
