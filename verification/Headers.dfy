/** The header packet: written on both sides of the WASM boundary, parsed on the Go side. */
module Headers {
  import opened Bytes
  import opened Wire

  datatype Header = Header(name: Bytes, value: Bytes)

  // ---------------------------------------------------------------- the format

  /** A length in `w` bytes, then the bytes. */
  function Sized(w: nat, bs: Bytes): Bytes {
    LE(|bs|, w) + bs
  }

  function EntryBytes(h: Header): Bytes {
    Sized(4, h.name) + Sized(4, h.value)
  }

  function EntriesBytes(hs: seq<Header>): Bytes {
    if hs == [] then [] else EntryBytes(hs[0]) + EntriesBytes(hs[1..])
  }

  function PacketBytes(hs: seq<Header>): Bytes {
    LE(|hs|, 4) + EntriesBytes(hs)
  }

  /** A 32-bit number as it stands in a packet, low byte first. */
  function U32(v: nat): Bytes {
    [v % 256, v / 256 % 256, v / 0x1_0000 % 256, v / 0x100_0000 % 256]
  }

  /** Byte by byte: the number of headers, then each name and value behind its length. */
  lemma PacketLayout(hs: seq<Header>)
    ensures PacketBytes(hs) == U32(|hs|) + EntriesBytes(hs) && EntriesBytes([]) == []
    ensures hs != [] ==>
              EntriesBytes(hs)
                == U32(|hs[0].name|) + hs[0].name + U32(|hs[0].value|) + hs[0].value + EntriesBytes(hs[1..])
  {
    BytesOf(|hs|);
    if hs != [] {
      BytesOf(|hs[0].name|);
      BytesOf(|hs[0].value|);
    }
    hide LE;
  }

  // ---------------------------------------------------------------- parsing

  /** How parsing ends, with the headers handed to the callback before it did. `Crashed`: an offset wrapped
      around 32 bits and the slice expression was out of range. */
  datatype Parsing =
    | Parsed(headers: seq<Header>)
    | Truncated(headers: seq<Header>)
    | Crashed(headers: seq<Header>)

  datatype Slice = Slice(bytes: Bytes) | Short | OutOfRange

  /** `pkt[i : i+n]` behind the check `i+n > len(pkt)`, in uint32 arithmetic. */
  function SliceAt(pkt: Bytes, i: nat, n: nat): Slice
    requires i <= |pkt| < 0x8000_0000 && n < 0x1_0000_0000
  {
    var end := if i + n < 0x1_0000_0000 then i + n else i + n - 0x1_0000_0000;
    if end > |pkt| then Short
    else if end < i then OutOfRange
    else Slice(pkt[i..end])
  }

  /** A length and as many bytes. */
  function SizedAt(pkt: Bytes, i: nat): (r: Slice)
    requires i <= |pkt| < 0x8000_0000
    ensures r.Slice? ==> i + 4 + |r.bytes| <= |pkt|
  {
    if i + 4 > |pkt| then Short
    else
      Rooms();
      ReadWritesBack(pkt[i..i + 4]);
      SliceAt(pkt, i + 4, GetLE(pkt[i..i + 4]))
  }

  /** The next name and value, the offset behind them, or why there is none. */
  datatype Entry = Entry(header: Header, next: nat) | NoEntry(crashed: bool)

  function EntryAt(pkt: Bytes, i: nat): (r: Entry)
    requires i <= |pkt| < 0x8000_0000
    ensures r.Entry? ==> i + 8 + |r.header.name| + |r.header.value| == r.next <= |pkt|
  {
    match SizedAt(pkt, i)
    case Short => NoEntry(false)
    case OutOfRange => NoEntry(true)
    case Slice(name) =>
      match SizedAt(pkt, i + 4 + |name|)
      case Short => NoEntry(false)
      case OutOfRange => NoEntry(true)
      case Slice(value) => Entry(Header(name, value), i + 8 + |name| + |value|)
  }

  function ParseEntries(pkt: Bytes, i: nat, left: nat, done: seq<Header>): Parsing
    requires i <= |pkt| < 0x8000_0000
    decreases left
  {
    if left == 0 then Parsed(done)
    else
      match EntryAt(pkt, i)
      case NoEntry(crashed) => if crashed then Crashed(done) else Truncated(done)
      case Entry(h, next) => ParseEntries(pkt, next, left - 1, done + [h])
  }

  function Parse(pkt: Bytes): Parsing
    requires |pkt| < 0x8000_0000
  {
    if |pkt| < 4 then Truncated([]) else ParseEntries(pkt, 4, GetLE(pkt[0..4]), [])
  }

  /** The two bounds checks and slices of one turn of the loop. */
  method NextEntry(pkt: Bytes, at: nat) returns (r: Entry)
    requires at <= |pkt| < 0x8000_0000
    ensures r == EntryAt(pkt, at)
  {
    var i := at;
    var name := SizedAt(pkt, i);
    if !name.Slice? {
      return NoEntry(name.OutOfRange?);
    }
    i := i + 4 + |name.bytes|;
    var value := SizedAt(pkt, i);
    if !value.Slice? {
      return NoEntry(value.OutOfRange?);
    }
    return Entry(Header(name.bytes, value.bytes), i + 4 + |value.bytes|);
  }

  method ParseHeaderPacket(pkt: Bytes) returns (r: Parsing)
    requires |pkt| < 0x8000_0000
    ensures r == Parse(pkt)
  {
    hide EntryAt, GetLE;
    if |pkt| < 4 {
      return Truncated([]);
    }
    var count := GetLE(pkt[0..4]);
    var i: nat, k: nat, seen: seq<Header> := 4, 0, [];
    ghost var goal := ParseEntries(pkt, 4, count, []);
    while k < count
      invariant 4 <= i <= |pkt| && k <= count
      invariant goal == ParseEntries(pkt, i, count - k, seen)
    {
      var entry := NextEntry(pkt, i);
      if entry.NoEntry? {
        return if entry.crashed then Crashed(seen) else Truncated(seen);
      }
      seen := seen + [entry.header];
      i := entry.next;
      k := k + 1;
    }
    return Parsed(seen);
  }

  // ---------------------------------------------------------------- encoding

  lemma {:induction false} EntriesAppend(hs: seq<Header>, h: Header)
    ensures EntriesBytes(hs + [h]) == EntriesBytes(hs) + EntryBytes(h)
  {
    if hs == [] {
      assert hs + [h] == [h] && [h][1..] == [];
    } else {
      assert (hs + [h])[1..] == hs[1..] + [h];
      EntriesAppend(hs[1..], h);
    }
  }

  /** The two passes: the packet's size, then its bytes. */
  method EncodeHeaderPacket(headers: seq<Header>) returns (r: Bytes)
    ensures r == PacketBytes(headers)
  {
    var size, k := 4, 0;
    while k < |headers|
      invariant 0 <= k <= |headers| && size == |LE(|headers|, 4) + EntriesBytes(headers[..k])|
    {
      assert headers[..k + 1] == headers[..k] + [headers[k]];
      EntriesAppend(headers[..k], headers[k]);
      size := size + 4 + |headers[k].name| + 4 + |headers[k].value|;
      k := k + 1;
    }
    assert headers[..k] == headers;
    var out := new byte[size](_ => 0);
    FillPacket(out, headers);
    return out[..];
  }

  /** Writes the packet at the start of a buffer that is long enough. */
  method FillPacket(out: array<byte>, headers: seq<Header>)
    requires |PacketBytes(headers)| <= out.Length
    modifies out
    ensures out[..|PacketBytes(headers)|] == PacketBytes(headers)
  {
    var off := Append(out, LE(|headers|, 4), 0, []);
    assert headers[..0] == [];
    var k := 0;
    while k < |headers|
      invariant 0 <= k <= |headers| && off == 4 + |EntriesBytes(headers[..k])| <= out.Length
      invariant out[..off] == LE(|headers|, 4) + EntriesBytes(headers[..k])
    {
      EntriesGrow(headers, k);
      off := AppendEntry(out, headers[k], off, out[..off]);
      k := k + 1;
    }
    assert headers[..k] == headers;
  }

  method AppendEntry(out: array<byte>, h: Header, at: nat, ghost done: Bytes) returns (off: nat)
    requires at + |EntryBytes(h)| <= out.Length && out[..at] == done
    modifies out
    ensures off == at + |EntryBytes(h)| && out[..off] == done + EntryBytes(h)
  {
    EntryLaidOut(done, h);
    hide LE, EntryBytes;
    off := Append(out, LE(|h.name|, 4), at, done);
    off := Append(out, h.name, off, out[..off]);
    off := Append(out, LE(|h.value|, 4), off, out[..off]);
    off := Append(out, h.value, off, out[..off]);
  }

  lemma EntryLaidOut(done: Bytes, h: Header)
    ensures done + LE(|h.name|, 4) + h.name + LE(|h.value|, 4) + h.value == done + EntryBytes(h)
    ensures |EntryBytes(h)| == 8 + |h.name| + |h.value|
  {
  }

  lemma EntriesGrow(hs: seq<Header>, k: nat)
    requires k < |hs|
    ensures EntriesBytes(hs[..k + 1]) == EntriesBytes(hs[..k]) + EntryBytes(hs[k])
    ensures |EntriesBytes(hs[..k + 1])| <= |EntriesBytes(hs)|
  {
    assert hs[..k + 1] == hs[..k] + [hs[k]];
    EntriesAppend(hs[..k], hs[k]);
    EntriesSplit(hs, k + 1);
  }

  lemma {:induction false} EntriesSplit(hs: seq<Header>, k: nat)
    requires k <= |hs|
    ensures EntriesBytes(hs) == EntriesBytes(hs[..k]) + EntriesBytes(hs[k..])
    decreases |hs| - k
  {
    hide EntryBytes;
    if k == |hs| {
      assert hs[..k] == hs;
    } else {
      EntriesSplit(hs, k + 1);
      assert hs[..k + 1] == hs[..k] + [hs[k]] && hs[k..][1..] == hs[k + 1..];
      EntriesAppend(hs[..k], hs[k]);
    }
  }

  // ---------------------------------------------------------------- round trips

  /** A sized string is read exactly where its encoding stands. */
  lemma ReadsSized(pkt: Bytes, i: nat, bs: Bytes)
    requires i <= |pkt| < 0x8000_0000
    ensures SizedAt(pkt, i) == Slice(bs) <==> At(Sized(4, bs), pkt, i)
  {
    Rooms();
    if At(Sized(4, bs), pkt, i) {
      AtHalves(LE(|bs|, 4), bs, pkt, i);
      WrittenReadsBack(|bs|, 4);
    }
    if SizedAt(pkt, i) == Slice(bs) {
      ReadWritesBack(pkt[i..i + 4]);
      Glue(LE(|bs|, 4), bs, pkt, i);
    }
  }

  lemma StandingEntryIsRead(pkt: Bytes, i: nat, h: Header)
    requires i <= |pkt| < 0x8000_0000 && At(EntryBytes(h), pkt, i)
    ensures EntryAt(pkt, i) == Entry(h, i + |EntryBytes(h)|)
  {
    AtHalves(Sized(4, h.name), Sized(4, h.value), pkt, i);
    ReadsSized(pkt, i, h.name);
    ReadsSized(pkt, i + 4 + |h.name|, h.value);
  }

  lemma ReadEntryStands(pkt: Bytes, i: nat)
    requires i <= |pkt| < 0x8000_0000 && EntryAt(pkt, i).Entry?
    ensures var e := EntryAt(pkt, i); At(EntryBytes(e.header), pkt, i) && e.next == i + |EntryBytes(e.header)|
  {
    var h := EntryAt(pkt, i).header;
    ReadsSized(pkt, i, h.name);
    ReadsSized(pkt, i + 4 + |h.name|, h.value);
    Glue(Sized(4, h.name), Sized(4, h.value), pkt, i);
  }

  /** The entries are read one behind the other from `i` on. */
  ghost predicate EntriesRead(hs: seq<Header>, pkt: Bytes, i: nat)
    requires i <= |pkt| < 0x8000_0000
  {
    hs == [] || var e := EntryAt(pkt, i); e.Entry? && e.header == hs[0] && EntriesRead(hs[1..], pkt, e.next)
  }

  lemma {:induction false} StandingAreRead(hs: seq<Header>, pkt: Bytes, i: nat)
    requires i <= |pkt| < 0x8000_0000 && At(EntriesBytes(hs), pkt, i)
    ensures EntriesRead(hs, pkt, i)
    decreases |hs|
  {
    if hs != [] {
      FirstIsRead(hs, pkt, i);
      StandingAreRead(hs[1..], pkt, EntryAt(pkt, i).next);
    }
  }

  lemma FirstIsRead(hs: seq<Header>, pkt: Bytes, i: nat)
    requires hs != [] && i <= |pkt| < 0x8000_0000 && At(EntriesBytes(hs), pkt, i)
    ensures var e := EntryAt(pkt, i); e.Entry? && e.header == hs[0] && At(EntriesBytes(hs[1..]), pkt, e.next)
  {
    AtHalves(EntryBytes(hs[0]), EntriesBytes(hs[1..]), pkt, i);
    StandingEntryIsRead(pkt, i, hs[0]);
  }

  lemma {:induction false} ReadStand(hs: seq<Header>, pkt: Bytes, i: nat)
    requires i <= |pkt| < 0x8000_0000 && EntriesRead(hs, pkt, i)
    ensures At(EntriesBytes(hs), pkt, i)
    decreases |hs|
  {
    if hs != [] {
      ReadEntryStands(pkt, i);
      ReadStand(hs[1..], pkt, EntryAt(pkt, i).next);
      Glue(EntryBytes(hs[0]), EntriesBytes(hs[1..]), pkt, i);
    }
  }

  lemma Push(done: seq<Header>, h: Header, hs: seq<Header>)
    ensures done + [h] + hs == done + ([h] + hs) && ([h] + hs)[1..] == hs
  {
  }

  lemma {:induction false} ReadsEntries(pkt: Bytes, i: nat, hs: seq<Header>, done: seq<Header>)
    requires i <= |pkt| < 0x8000_0000 && EntriesRead(hs, pkt, i)
    ensures ParseEntries(pkt, i, |hs|, done) == Parsed(done + hs)
    decreases |hs|
  {
    hide EntryAt;
    if hs == [] {
      assert done + hs == done;
    } else {
      ReadsEntries(pkt, EntryAt(pkt, i).next, hs[1..], done + [hs[0]]);
      Push(done, hs[0], hs[1..]);
      assert [hs[0]] + hs[1..] == hs;
    }
  }

  lemma {:induction false} ParsedWereRead(pkt: Bytes, i: nat, left: nat, done: seq<Header>) returns (hs: seq<Header>)
    requires i <= |pkt| < 0x8000_0000 && ParseEntries(pkt, i, left, done).Parsed?
    ensures |hs| == left && EntriesRead(hs, pkt, i) && ParseEntries(pkt, i, left, done) == Parsed(done + hs)
    decreases left
  {
    if left == 0 {
      hs := [];
      assert done + hs == done;
    } else {
      var Entry(h, next) := EntryAt(pkt, i);
      var others := ParsedWereRead(pkt, next, left - 1, done + [h]);
      hs := [h] + others;
      Push(done, h, others);
    }
  }

  /** Parsing an encoded list gives it back, whatever follows. */
  lemma ParsesEncoded(hs: seq<Header>, tail: Bytes)
    requires |PacketBytes(hs) + tail| < 0x8000_0000
    ensures Parse(PacketBytes(hs) + tail) == Parsed(hs)
  {
    var pkt := PacketBytes(hs) + tail;
    EntriesAtLeast(hs);
    assert pkt[0..4] == LE(|hs|, 4);
    Rooms();
    WrittenReadsBack(|hs|, 4);
    assert At(EntriesBytes(hs), pkt, 4);
    StandingAreRead(hs, pkt, 4);
    ReadsEntries(pkt, 4, hs, []);
    assert [] + hs == hs;
  }

  lemma {:induction false} EntriesAtLeast(hs: seq<Header>)
    ensures |EntriesBytes(hs)| >= 8 * |hs|
  {
    if hs != [] {
      EntriesAtLeast(hs[1..]);
    }
  }

  /** The encoding is canonical: an accepted packet begins with the encoding of what was parsed. */
  lemma ParsedIsEncoded(pkt: Bytes)
    requires |pkt| < 0x8000_0000 && Parse(pkt).Parsed?
    ensures PacketBytes(Parse(pkt).headers) <= pkt
  {
    var hs := ParsedWereRead(pkt, 4, GetLE(pkt[0..4]), []);
    assert Parse(pkt).headers == [] + hs == hs;
    ReadStand(hs, pkt, 4);
    ReadWritesBack(pkt[0..4]);
    Glue(LE(|hs|, 4), EntriesBytes(hs), pkt, 0);
  }

  /** Cutting an encoded packet short anywhere makes the parser refuse it. */
  lemma CutPacketsAreRefused(hs: seq<Header>, n: nat)
    requires |PacketBytes(hs)| < 0x8000_0000 && n < |PacketBytes(hs)|
    ensures !Parse(PacketBytes(hs)[..n]).Parsed?
  {
    var whole := PacketBytes(hs);
    if Parse(whole[..n]).Parsed? {
      ParsedIsEncoded(whole[..n]);
      NoPacketInsideAnother(Parse(whole[..n]).headers, hs);
    }
  }

  /** A slice is given when it lies in the packet, refused when it ends behind it, and panics when its end wraps. */
  lemma SliceOutcome(pkt: Bytes, i: nat, n: nat)
    requires i <= |pkt| < 0x8000_0000 && n < 0x1_0000_0000
    ensures SliceAt(pkt, i, n) ==
              if i + n <= |pkt| then Slice(pkt[i..i + n]) else if i + n < 0x1_0000_0000 then Short else OutOfRange
  {
  }

  /** From `i` on stand the first bytes of `whole`, and not all of them. */
  predicate CutOff(pkt: Bytes, i: nat, whole: Bytes) {
    i <= |pkt| < i + |whole| < 0x8000_0000 && pkt[i..] == whole[..|pkt| - i]
  }

  lemma CutSized(pkt: Bytes, i: nat, bs: Bytes)
    requires CutOff(pkt, i, Sized(4, bs))
    ensures SizedAt(pkt, i) == Short
  {
    if i + 4 <= |pkt| {
      assert pkt[i..i + 4] == LE(|bs|, 4) by {
        assert pkt[i..i + 4] == pkt[i..][..4] == Sized(4, bs)[..4];
      }
      Rooms();
      WrittenReadsBack(|bs|, 4);
    }
  }

  lemma CutEntry(pkt: Bytes, i: nat, h: Header)
    requires CutOff(pkt, i, EntryBytes(h))
    ensures EntryAt(pkt, i) == NoEntry(false)
  {
    var a, b := Sized(4, h.name), Sized(4, h.value);
    if i + |a| <= |pkt| {
      assert At(a, pkt, i) by { assert pkt[i..i + |a|] == pkt[i..][..|a|] == (a + b)[..|a|]; }
      ReadsSized(pkt, i, h.name);
      assert pkt[i + |a|..] == pkt[i..][|a|..] == b[..|pkt| - i - |a|];
      CutSized(pkt, i + |a|, h.value);
    } else {
      assert pkt[i..] == a[..|pkt| - i];
      CutSized(pkt, i, h.name);
    }
  }

  lemma CutRest(pkt: Bytes, i: nat, hs: seq<Header>)
    requires hs != [] && CutOff(pkt, i, EntriesBytes(hs))
    ensures var e := EntryBytes(hs[0]);
            if i + |e| <= |pkt| then At(e, pkt, i) && CutOff(pkt, i + |e|, EntriesBytes(hs[1..])) else CutOff(pkt, i, e)
  {
    hide EntryBytes;
    var e, rest := EntryBytes(hs[0]), EntriesBytes(hs[1..]);
    assert EntriesBytes(hs) == e + rest;
    hide EntriesBytes;
    if i + |e| <= |pkt| {
      assert pkt[i..i + |e|] == pkt[i..][..|e|] == e;
      assert pkt[i + |e|..] == pkt[i..][|e|..] == rest[..|pkt| - i - |e|];
    } else {
      assert pkt[i..] == e[..|pkt| - i];
    }
  }

  /** Of entries cut off somewhere, exactly those that are there in whole are delivered. */
  lemma {:induction false} CutEntries(pkt: Bytes, i: nat, hs: seq<Header>, done: seq<Header>) returns (k: nat)
    requires hs != [] && CutOff(pkt, i, EntriesBytes(hs))
    ensures k < |hs| && ParseEntries(pkt, i, |hs|, done) == Truncated(done + hs[..k])
    ensures i + |EntriesBytes(hs[..k])| <= |pkt| < i + |EntriesBytes(hs[..k + 1])|
    decreases |hs|
  {
    hide *;
    var e, rest := EntryBytes(hs[0]), hs[1..];
    CutBounds(pkt, i, EntriesBytes(hs));
    CutRest(pkt, i, hs);
    if i + |e| <= |pkt| {
      StandingEntryIsRead(pkt, i, hs[0]);
      ParsesOne(pkt, i, |hs|, done);
      assert rest != [] by {
        NoEntriesCut(pkt, i + |e|, rest);
      }
      var m := CutEntries(pkt, i + |e|, rest, done + [hs[0]]);
      k := m + 1;
      FrontEntries(hs, m);
      FrontEntries(hs, m + 1);
      assert done + [hs[0]] + rest[..m] == done + ([hs[0]] + rest[..m]);
    } else {
      CutEntry(pkt, i, hs[0]);
      ParsesOne(pkt, i, |hs|, done);
      k := 0;
      FrontEntries(hs, 0);
      NoEntries(hs, done);
    }
  }

  lemma CutBounds(pkt: Bytes, i: nat, whole: Bytes)
    requires CutOff(pkt, i, whole)
    ensures i <= |pkt| < i + |whole| < 0x8000_0000
  {
  }

  lemma NoEntriesCut(pkt: Bytes, i: nat, hs: seq<Header>)
    requires CutOff(pkt, i, EntriesBytes(hs))
    ensures hs != []
  {
  }

  lemma ParsesOne(pkt: Bytes, i: nat, left: nat, done: seq<Header>)
    requires i <= |pkt| < 0x8000_0000 && left > 0
    ensures EntryAt(pkt, i).Entry? ==>
              var Entry(h, next) := EntryAt(pkt, i);
              ParseEntries(pkt, i, left, done) == ParseEntries(pkt, next, left - 1, done + [h])
    ensures EntryAt(pkt, i) == NoEntry(false) ==> ParseEntries(pkt, i, left, done) == Truncated(done)
  {
  }

  lemma FrontEntries(hs: seq<Header>, m: nat)
    requires m < |hs|
    ensures hs[..m + 1] == [hs[0]] + hs[1..][..m]
    ensures |EntriesBytes(hs[..m + 1])| == |EntryBytes(hs[0])| + |EntriesBytes(hs[1..][..m])|
  {
    hide EntryBytes;
    assert hs[..m + 1][1..] == hs[1..][..m];
  }

  lemma NoEntries(hs: seq<Header>, done: seq<Header>)
    ensures EntriesBytes(hs[..0]) == [] && done + hs[..0] == done && (hs != [] ==> EntriesBytes(hs[1..][..0]) == [])
  {
  }

  /** A packet cut short is truncated, after delivering exactly the headers that are there in whole. */
  lemma CutPacketsDeliver(hs: seq<Header>, n: nat) returns (k: nat)
    requires n < |PacketBytes(hs)| < 0x8000_0000
    ensures k <= |hs| && Parse(PacketBytes(hs)[..n]) == Truncated(hs[..k])
    ensures n >= 4 ==> 4 + |EntriesBytes(hs[..k])| <= n
    ensures k < |hs| ==> n < 4 + |EntriesBytes(hs[..k + 1])|
  {
    var pkt := PacketBytes(hs)[..n];
    k := 0;
    assert hs[..0] == [];
    if n >= 4 {
      assert pkt[0..4] == LE(|hs|, 4);
      EntriesAtLeast(hs);
      Rooms();
      WrittenReadsBack(|hs|, 4);
      assert pkt[4..] == EntriesBytes(hs)[..n - 4];
      k := CutEntries(pkt, 4, hs, []);
      assert [] + hs[..k] == hs[..k];
    }
  }

  /** No packet is a proper prefix of another. */
  lemma NoPacketInsideAnother(gs: seq<Header>, hs: seq<Header>)
    requires |PacketBytes(hs)| < 0x8000_0000 && PacketBytes(gs) <= PacketBytes(hs)
    ensures gs == hs
  {
    var whole, part := PacketBytes(hs), PacketBytes(gs);
    assert whole == part + whole[|part|..] && whole == whole + [];
    ParsesEncoded(gs, whole[|part|..]);
    ParsesEncoded(hs, []);
  }
}
