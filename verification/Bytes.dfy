/** Byte strings and substring search, shared by the regex prefilter and the wire formats. */
module Bytes {
  type byte = x: int | 0 <= x < 256
  type Bytes = seq<byte>

  /** `w` stands in `t` at position `p`. */
  predicate At(w: Bytes, t: Bytes, p: int) {
    0 <= p <= p + |w| <= |t| && t[p..p + |w|] == w
  }

  /** `w` stands somewhere inside `t[i..j]`. */
  ghost predicate OccursIn(w: Bytes, t: Bytes, i: int, j: int) {
    exists p :: i <= p && p + |w| <= j && At(w, t, p)
  }

  /** `w` stands somewhere in `t`: the meaning of a substring search. */
  ghost predicate Occurs(w: Bytes, t: Bytes) {
    OccursIn(w, t, 0, |t|)
  }

  function AsciiLowerByte(b: byte): byte {
    if 'A' as int <= b <= 'Z' as int then b + 32 else b
  }

  /** ASCII letters folded to lower case, every other byte kept. */
  function AsciiLower(s: Bytes): (t: Bytes)
    ensures |t| == |s|
  {
    seq(|s|, k requires 0 <= k < |s| => AsciiLowerByte(s[k]))
  }

  predicate IsAscii(s: Bytes) {
    forall k :: 0 <= k < |s| ==> s[k] < 128
  }

  /** The text in which literals are looked up: lower-cased when matching ignores case. */
  function Norm(ci: bool, s: Bytes): (t: Bytes)
    ensures |t| == |s|
  {
    if ci then AsciiLower(s) else s
  }

  lemma Cut(t: Bytes, i: int, m: int, j: int)
    requires 0 <= i <= m <= j <= |t|
    ensures t[i..j] == t[i..m] + t[m..j]
  {
  }

  /** Two strings standing one behind the other stand there glued together. */
  lemma Glue(v: Bytes, w: Bytes, t: Bytes, p: int)
    requires At(v, t, p) && At(w, t, p + |v|)
    ensures At(v + w, t, p)
  {
    Cut(t, p, p + |v|, p + |v| + |w|);
  }

  lemma Nest(v: Bytes, w: Bytes, t: Bytes, p: int, q: int)
    requires At(v, w, p) && At(w, t, q)
    ensures At(v, t, q + p)
  {
    forall k | 0 <= k < |v| ensures t[q + p + k] == v[k] {
      assert w[p..p + |v|][k] == w[p + k];
      assert t[q..q + |w|][p + k] == t[q + p + k];
    }
  }

  /** A string stands where its two halves stand one behind the other. */
  lemma AtHalves(v: Bytes, w: Bytes, t: Bytes, p: int)
    requires At(v + w, t, p)
    ensures At(v, t, p) && At(w, t, p + |v|)
  {
    var both := v + w;
    assert v == both[0..|v|] && w == both[|v|..|both|];
    Nest(v, both, t, 0, p);
    Nest(w, both, t, |v|, p);
  }
}
