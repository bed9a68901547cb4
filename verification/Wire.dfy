/** Little-endian integers, and buffers filled through a moving offset. */
module Wire {
  import opened Bytes

  /** `v` without its low `k` bytes. */
  function Above(v: nat, k: nat): nat {
    if k == 0 then v else Above(v, k - 1) / 256
  }

  /** The low `w` bytes of `v`, low byte first. */
  function LE(v: nat, w: nat): (bs: Bytes)
    ensures |bs| == w
  {
    seq(w, k requires 0 <= k < w => Above(v, k) % 256)
  }

  function GetFrom(bs: Bytes, k: nat): nat
    requires k <= |bs|
    decreases |bs| - k
  {
    if k == |bs| then 0 else bs[k] + 256 * GetFrom(bs, k + 1)
  }

  function GetLE(bs: Bytes): nat {
    GetFrom(bs, 0)
  }

  /** How many numbers `w` bytes can hold. */
  function Room(w: nat): nat {
    if w == 0 then 1 else 256 * Room(w - 1)
  }

  lemma Rooms()
    ensures Room(1) == 0x100 && Room(2) == 0x1_0000 && Room(4) == 0x1_0000_0000
  {
    assert Room(2) == 0x1_0000 && Room(3) == 0x100_0000;
  }

  lemma {:induction false} AboveFits(v: nat, k: nat, w: nat)
    requires v < Room(w) && k <= w
    ensures Above(v, k) < Room(w - k)
  {
    if k > 0 {
      AboveFits(v, k - 1, w);
    }
  }

  lemma {:induction false} ReadsAbove(v: nat, w: nat, k: nat)
    requires v < Room(w) && k <= w
    ensures GetFrom(LE(v, w), k) == Above(v, k)
    decreases w - k
  {
    if k == w {
      AboveFits(v, w, w);
    } else {
      ReadsAbove(v, w, k + 1);
    }
  }

  lemma WrittenReadsBack(v: nat, w: nat)
    requires v < Room(w)
    ensures GetLE(LE(v, w)) == v
  {
    ReadsAbove(v, w, 0);
  }

  lemma {:induction false} GetFits(bs: Bytes, k: nat)
    requires k <= |bs|
    ensures GetFrom(bs, k) < Room(|bs| - k)
    decreases |bs| - k
  {
    if k < |bs| {
      GetFits(bs, k + 1);
    }
  }

  lemma {:induction false} AboveGet(bs: Bytes, k: nat)
    requires k <= |bs|
    ensures Above(GetLE(bs), k) == GetFrom(bs, k)
  {
    if k > 0 {
      AboveGet(bs, k - 1);
    }
  }

  lemma ReadWritesBack(bs: Bytes)
    ensures GetLE(bs) < Room(|bs|) && LE(GetLE(bs), |bs|) == bs
  {
    GetFits(bs, 0);
    forall k | 0 <= k < |bs| ensures LE(GetLE(bs), |bs|)[k] == bs[k] {
      AboveGet(bs, k);
    }
  }

  /** The low byte comes first, in what is written and in what is read. */
  lemma LowByteFirst(v: nat, w: nat, bs: Bytes)
    ensures w > 0 ==> LE(v, w) == [v % 256] + LE(v / 256, w - 1)
    ensures bs != [] ==> GetLE(bs) == bs[0] + 256 * GetLE(bs[1..])
    ensures LE(v, 0) == [] && GetLE([]) == 0
  {
    forall k: nat | k < w ensures Above(v, k + 1) == Above(v / 256, k) {
      AboveNext(v, k);
    }
    if w > 0 {
      forall k | 0 <= k < w ensures LE(v, w)[k] == ([v % 256] + LE(v / 256, w - 1))[k] {
        assert k > 0 ==> Above(v, k) == Above(v / 256, k - 1);
      }
    }
    if bs != [] {
      GetBehind(bs, 1);
    }
  }

  /** The bytes of the three widths in use, low byte first. */
  lemma BytesOf(v: nat)
    ensures LE(v, 1) == [v % 256] && LE(v, 2) == [v % 256, v / 256 % 256]
    ensures LE(v, 4) == [v % 256, v / 256 % 256, v / 0x1_0000 % 256, v / 0x100_0000 % 256]
  {
    var a, b := v / 256, v / 256 / 256;
    LowByteFirst(v, 1, []);
    LowByteFirst(v, 2, []);
    LowByteFirst(v, 4, []);
    LowByteFirst(a, 1, []);
    LowByteFirst(a, 3, []);
    LowByteFirst(b, 2, []);
    LowByteFirst(b / 256, 1, []);
    LowByteFirst(b / 256 / 256, 0, []);
    hide LE;
    assert b == v / 0x1_0000 && b / 256 == v / 0x100_0000;
  }

  lemma {:induction false} AboveNext(v: nat, k: nat)
    ensures Above(v, k + 1) == Above(v / 256, k)
  {
    if k > 0 {
      AboveNext(v, k - 1);
    }
  }

  lemma {:induction false} GetBehind(bs: Bytes, k: nat)
    requires 1 <= k <= |bs|
    ensures GetFrom(bs, k) == GetFrom(bs[1..], k - 1)
    decreases |bs| - k
  {
    if k < |bs| {
      GetBehind(bs, k + 1);
    }
  }

  /** `dst.set(src, at)`. */
  method Set(dst: array<byte>, src: Bytes, at: nat)
    requires at + |src| <= dst.Length
    modifies dst
    ensures dst[..] == old(dst[..at]) + src + old(dst[at + |src|..])
  {
    forall k | 0 <= k < |src| {
      dst[at + k] := src[k];
    }
  }

  /** Appends behind what has been written so far: `done` stands in front of `at`. */
  method Append(dst: array<byte>, src: Bytes, at: nat, ghost done: Bytes) returns (next: nat)
    requires at + |src| <= dst.Length && dst[..at] == done
    modifies dst
    ensures next == at + |src| && dst[..next] == done + src
  {
    Set(dst, src, at);
    next := at + |src|;
  }
}
