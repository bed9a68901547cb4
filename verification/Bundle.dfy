/** The request bundle as the Go side reads it. */
module Bundle {
  import opened Bytes
  import opened Wire
  import opened Headers

  // ---------------------------------------------------------------- the format

  datatype Fields = Fields(
    addr: Bytes, cport: nat, sport: nat, method_: Bytes, proto: Bytes, url: Bytes, hdr: Bytes, body: Bytes)

  function ConnectionBytes(f: Fields): Bytes {
    Sized(2, f.addr) + LE(f.cport, 2) + LE(f.sport, 2)
  }

  function LineBytes(f: Fields): Bytes {
    Sized(1, f.method_) + Sized(1, f.proto)
  }

  function PayloadBytes(f: Fields): Bytes {
    Sized(4, f.url) + Sized(4, f.hdr) + Sized(4, f.body)
  }

  function BundleBytes(f: Fields): Bytes {
    ConnectionBytes(f) + LineBytes(f) + PayloadBytes(f)
  }

  /** Everything fits the width of its length field. */
  predicate Fits(f: Fields) {
    && |f.addr| < 0x1_0000 && f.cport < 0x1_0000 && f.sport < 0x1_0000
    && |f.method_| < 0x100 && |f.proto| < 0x100
    && |f.url| < 0x1_0000_0000 && |f.hdr| < 0x1_0000_0000 && |f.body| < 0x1_0000_0000
  }

  /** Byte by byte: 16-bit length and ports, then 8-bit lengths, then 32-bit lengths, all low byte first. */
  lemma BundleLayout(f: Fields)
    requires Fits(f)
    ensures ConnectionBytes(f)
              == [|f.addr| % 256, |f.addr| / 256] + f.addr + [f.cport % 256, f.cport / 256] + [f.sport % 256, f.sport / 256]
    ensures LineBytes(f) == [|f.method_|] + f.method_ + ([|f.proto|] + f.proto)
    ensures PayloadBytes(f) == U32(|f.url|) + f.url + (U32(|f.hdr|) + f.hdr) + (U32(|f.body|) + f.body)
    ensures BundleBytes(f) == ConnectionBytes(f) + LineBytes(f) + PayloadBytes(f)
  {
    hide Sized, LE, U32;
    SizedLayout(f.addr);
    PortLayout(f.cport);
    PortLayout(f.sport);
    SizedLayout(f.method_);
    SizedLayout(f.proto);
    SizedLayout(f.url);
    SizedLayout(f.hdr);
    SizedLayout(f.body);
  }

  lemma PortLayout(port: nat)
    requires port < 0x1_0000
    ensures LE(port, 2) == [port % 256, port / 256]
  {
    BytesOf(port);
  }

  lemma SizedLayout(bs: Bytes)
    ensures |bs| < 0x100 ==> Sized(1, bs) == [|bs|] + bs
    ensures |bs| < 0x1_0000 ==> Sized(2, bs) == [|bs| % 256, |bs| / 256] + bs
    ensures Sized(4, bs) == U32(|bs|) + bs
  {
    BytesOf(|bs|);
    hide LE;
  }

  // ---------------------------------------------------------------- the cursor

  /** The shared offset, whether every read so far was in bounds, and whether a slice expression panicked. */
  datatype Cursor = Cursor(off: nat, ok: bool, crashed: bool)

  datatype Read = Read(bytes: Bytes, cursor: Cursor)

  predicate Within(pkt: Bytes, c: Cursor) {
    c.off <= |pkt| < 0x8000_0000
  }

  /** A 32-bit value as Go's 32-bit int. */
  function Int32(v: int): (n: int)
    requires -0x8000_0000 <= v < 0x1_0000_0000
    ensures -0x8000_0000 <= n < 0x8000_0000
  {
    if v < 0x8000_0000 then v else v - 0x1_0000_0000
  }

  /** readBlob: the next `n` bytes, checked and sliced in 32-bit arithmetic. */
  function Take(pkt: Bytes, c: Cursor, n: int): (r: Read)
    requires Within(pkt, c) && -0x8000_0000 <= n < 0x8000_0000
    ensures Within(pkt, r.cursor)
    ensures r.bytes == [] || |r.bytes| == n
  {
    if c.crashed then Read([], c)
    else
      var end := Int32(c.off + n);
      if end > |pkt| then Read([], c.(ok := false))
      else if end < c.off then Read([], c.(crashed := true))
      else Read(pkt[c.off..end], c.(off := end))
  }

  /** A length of `w` bytes and the blob behind it; a length that is not there counts as 0. */
  function TakeSized(pkt: Bytes, c: Cursor, w: nat): (r: Read)
    requires Within(pkt, c) && w <= 4
    ensures Within(pkt, r.cursor)
  {
    var len := Take(pkt, c, w);
    LengthFits(len.bytes);
    Take(pkt, len.cursor, Int32(GetLE(len.bytes)))
  }

  lemma LengthFits(bs: Bytes)
    requires |bs| <= 4
    ensures GetLE(bs) < 0x1_0000_0000
  {
    ReadWritesBack(bs);
    Rooms();
    assert Room(|bs|) <= 0x1_0000_0000;
  }

  // ---------------------------------------------------------------- the decoder

  datatype Connection = Connection(addr: Bytes, cport: nat, sport: nat, cursor: Cursor)
  datatype Line = Line(method_: Bytes, proto: Bytes, cursor: Cursor)
  datatype Payload = Payload(url: Bytes, hdr: Bytes, body: Bytes, cursor: Cursor)

  function TakeConnection(pkt: Bytes, c: Cursor): (r: Connection)
    requires Within(pkt, c)
    ensures Within(pkt, r.cursor)
  {
    var addr := TakeSized(pkt, c, 2);
    var cport := Take(pkt, addr.cursor, 2);
    var sport := Take(pkt, cport.cursor, 2);
    Connection(addr.bytes, GetLE(cport.bytes), GetLE(sport.bytes), sport.cursor)
  }

  function TakeLine(pkt: Bytes, c: Cursor): (r: Line)
    requires Within(pkt, c)
    ensures Within(pkt, r.cursor)
  {
    var m := TakeSized(pkt, c, 1);
    var proto := TakeSized(pkt, m.cursor, 1);
    Line(m.bytes, proto.bytes, proto.cursor)
  }

  function TakePayload(pkt: Bytes, c: Cursor): (r: Payload)
    requires Within(pkt, c)
    ensures Within(pkt, r.cursor)
  {
    var url := TakeSized(pkt, c, 4);
    var hdr := TakeSized(pkt, url.cursor, 4);
    var body := TakeSized(pkt, hdr.cursor, 4);
    Payload(url.bytes, hdr.bytes, body.bytes, body.cursor)
  }

  datatype Decoding = Decoded(fields: Fields) | Malformed | Panic

  function Assemble(conn: Connection, line: Line, load: Payload): Decoding {
    if load.cursor.crashed then Panic
    else if !load.cursor.ok then Malformed
    else Decoded(Fields(conn.addr, conn.cport, conn.sport, line.method_, line.proto, load.url, load.hdr, load.body))
  }

  function Decode(pkt: Bytes): Decoding
    requires |pkt| < 0x8000_0000
  {
    var conn := TakeConnection(pkt, Cursor(0, true, false));
    var line := TakeLine(pkt, conn.cursor);
    Assemble(conn, line, TakePayload(pkt, line.cursor))
  }

  /** The decoder's closures over one offset. */
  class PacketReader {
    const pkt: Bytes
    var off: nat
    var ok: bool
    var crashed: bool

    ghost function State(): Cursor
      reads this
    {
      Cursor(off, ok, crashed)
    }

    constructor (pkt: Bytes)
      ensures this.pkt == pkt && State() == Cursor(0, true, false)
    {
      this.pkt := pkt;
      off, ok, crashed := 0, true, false;
    }

    method ReadBlob(n: int) returns (b: Bytes)
      requires Within(pkt, State()) && -0x8000_0000 <= n < 0x8000_0000
      modifies this
      ensures Read(b, State()) == Take(pkt, old(State()), n)
    {
      if crashed {
        return [];
      }
      var end := Int32(off + n);
      if end > |pkt| {
        ok := false;
        return [];
      }
      if end < off {
        crashed := true;
        return [];
      }
      b := pkt[off..end];
      off := end;
    }

    method ReadU8() returns (v: nat)
      requires Within(pkt, State())
      modifies this
      ensures v == GetLE(Take(pkt, old(State()), 1).bytes) && State() == Take(pkt, old(State()), 1).cursor
    {
      var b := ReadBlob(1);
      return GetLE(b);
    }

    method ReadU16() returns (v: nat)
      requires Within(pkt, State())
      modifies this
      ensures v == GetLE(Take(pkt, old(State()), 2).bytes) && State() == Take(pkt, old(State()), 2).cursor
    {
      var b := ReadBlob(2);
      return GetLE(b);
    }

    method ReadU32() returns (v: nat)
      requires Within(pkt, State())
      modifies this
      ensures v == GetLE(Take(pkt, old(State()), 4).bytes) && State() == Take(pkt, old(State()), 4).cursor
    {
      var b := ReadBlob(4);
      return GetLE(b);
    }

    method ReadConnection() returns (r: Connection)
      requires Within(pkt, State())
      modifies this
      ensures r == TakeConnection(pkt, old(State())) && State() == r.cursor
    {
      var addrLen := ReadU16();
      LengthFits(Take(pkt, old(State()), 2).bytes);
      var addr := ReadBlob(Int32(addrLen));
      var cport := ReadU16();
      var sport := ReadU16();
      return Connection(addr, cport, sport, Cursor(off, ok, crashed));
    }

    method ReadLine() returns (r: Line)
      requires Within(pkt, State())
      modifies this
      ensures r == TakeLine(pkt, old(State())) && State() == r.cursor
    {
      var methodLen := ReadU8();
      LengthFits(Take(pkt, old(State()), 1).bytes);
      var m := ReadBlob(Int32(methodLen));
      ghost var c := State();
      var protoLen := ReadU8();
      LengthFits(Take(pkt, c, 1).bytes);
      var proto := ReadBlob(Int32(protoLen));
      return Line(m, proto, Cursor(off, ok, crashed));
    }

    method ReadLong() returns (b: Bytes)
      requires Within(pkt, State())
      modifies this
      ensures Read(b, State()) == TakeSized(pkt, old(State()), 4)
    {
      var len := ReadU32();
      LengthFits(Take(pkt, old(State()), 4).bytes);
      b := ReadBlob(Int32(len));
    }
  }

  method DecodeBundle(pkt: Bytes) returns (r: Decoding)
    requires |pkt| < 0x8000_0000
    ensures r == Decode(pkt)
  {
    var reader := new PacketReader(pkt);
    var conn := reader.ReadConnection();
    var line := reader.ReadLine();
    var url := reader.ReadLong();
    var hdr := reader.ReadLong();
    var body := reader.ReadLong();
    if reader.crashed {
      return Panic;
    }
    if !reader.ok {
      return Malformed;
    }
    return Decoded(Fields(conn.addr, conn.cport, conn.sport, line.method_, line.proto, url, hdr, body));
  }

  // ---------------------------------------------------------------- round trips

  ghost predicate Sound(c: Cursor) {
    c.ok && !c.crashed
  }

  /** Bytes that stand at the cursor are what is taken, and the other way round. */
  lemma Takes(pkt: Bytes, c: Cursor, bs: Bytes)
    requires Within(pkt, c) && Sound(c) && At(bs, pkt, c.off)
    ensures |bs| < 0x8000_0000 && Take(pkt, c, |bs|) == Read(bs, c.(off := c.off + |bs|))
  {
  }

  /** A blob is given when it lies in the packet and refused when it ends behind it; a length or an end that is
      negative as an int32 panics. */
  lemma TakeOutcome(pkt: Bytes, c: Cursor, n: int)
    requires Within(pkt, c) && -0x8000_0000 <= n < 0x8000_0000 && !c.crashed
    ensures Take(pkt, c, n) ==
              if n < 0 || c.off + n >= 0x8000_0000 then Read([], c.(crashed := true))
              else if c.off + n <= |pkt| then Read(pkt[c.off..c.off + n], c.(off := c.off + n))
              else Read([], c.(ok := false))
  {
  }

  lemma Taken(pkt: Bytes, c: Cursor, n: int)
    requires Within(pkt, c) && -0x8000_0000 <= n < 0x8000_0000 && Sound(Take(pkt, c, n).cursor)
    ensures Sound(c) && n >= 0 && |Take(pkt, c, n).bytes| == n
    ensures At(Take(pkt, c, n).bytes, pkt, c.off) && Take(pkt, c, n).cursor.off == c.off + n
  {
  }

  lemma TakesSized(pkt: Bytes, c: Cursor, w: nat, bs: Bytes)
    requires Within(pkt, c) && Sound(c) && w <= 4 && At(Sized(w, bs), pkt, c.off) && |bs| < Room(w)
    ensures TakeSized(pkt, c, w) == Read(bs, c.(off := c.off + |Sized(w, bs)|))
  {
    AtHalves(LE(|bs|, w), bs, pkt, c.off);
    hide LE, GetLE, At, Room;
    Takes(pkt, c, LE(|bs|, w));
    WrittenReadsBack(|bs|, w);
    Takes(pkt, c.(off := c.off + w), bs);
  }

  lemma TakenSized(pkt: Bytes, c: Cursor, w: nat)
    requires Within(pkt, c) && w <= 4 && Sound(TakeSized(pkt, c, w).cursor)
    ensures var r := TakeSized(pkt, c, w);
            && Sound(c) && At(Sized(w, r.bytes), pkt, c.off) && |r.bytes| < Room(w)
            && r.cursor.off == c.off + |Sized(w, r.bytes)|
  {
    var len := Take(pkt, c, w);
    LengthFits(len.bytes);
    var n := Int32(GetLE(len.bytes));
    Taken(pkt, len.cursor, n);
    Taken(pkt, c, w);
    ReadWritesBack(len.bytes);
    var bs := Take(pkt, len.cursor, n).bytes;
    Glue(LE(|bs|, w), bs, pkt, c.off);
  }

  lemma TakesConnection(pkt: Bytes, c: Cursor, f: Fields)
    requires Within(pkt, c) && Sound(c) && Fits(f) && At(ConnectionBytes(f), pkt, c.off)
    ensures TakeConnection(pkt, c) == Connection(f.addr, f.cport, f.sport, c.(off := c.off + |ConnectionBytes(f)|))
  {
    hide Take, TakeSized, Sized, LE, GetLE, Room, At;
    Rooms();
    AtHalves(Sized(2, f.addr) + LE(f.cport, 2), LE(f.sport, 2), pkt, c.off);
    AtHalves(Sized(2, f.addr), LE(f.cport, 2), pkt, c.off);
    TakesSized(pkt, c, 2, f.addr);
    var c1 := c.(off := c.off + |Sized(2, f.addr)|);
    Takes(pkt, c1, LE(f.cport, 2));
    Takes(pkt, c1.(off := c1.off + 2), LE(f.sport, 2));
    WrittenReadsBack(f.cport, 2);
    WrittenReadsBack(f.sport, 2);
  }

  lemma TakesLine(pkt: Bytes, c: Cursor, f: Fields)
    requires Within(pkt, c) && Sound(c) && Fits(f) && At(LineBytes(f), pkt, c.off)
    ensures TakeLine(pkt, c) == Line(f.method_, f.proto, c.(off := c.off + |LineBytes(f)|))
  {
    hide TakeSized, Sized, Room, At;
    Rooms();
    AtHalves(Sized(1, f.method_), Sized(1, f.proto), pkt, c.off);
    TakesSized(pkt, c, 1, f.method_);
    TakesSized(pkt, c.(off := c.off + |Sized(1, f.method_)|), 1, f.proto);
  }

  lemma TakesPayload(pkt: Bytes, c: Cursor, f: Fields)
    requires Within(pkt, c) && Sound(c) && Fits(f) && At(PayloadBytes(f), pkt, c.off)
    ensures TakePayload(pkt, c) == Payload(f.url, f.hdr, f.body, c.(off := c.off + |PayloadBytes(f)|))
  {
    hide TakeSized, Sized, At;
    var url, hdr, body := Sized(4, f.url), Sized(4, f.hdr), Sized(4, f.body);
    AtHalves(url + hdr, body, pkt, c.off);
    AtHalves(url, hdr, pkt, c.off);
    TakesLong(pkt, c, f.url);
    TakesLong(pkt, c.(off := c.off + |url|), f.hdr);
    TakesLong(pkt, c.(off := c.off + |url| + |hdr|), f.body);
  }

  lemma TakesLong(pkt: Bytes, c: Cursor, bs: Bytes)
    requires Within(pkt, c) && Sound(c) && At(Sized(4, bs), pkt, c.off) && |bs| < 0x1_0000_0000
    ensures TakeSized(pkt, c, 4) == Read(bs, c.(off := c.off + |Sized(4, bs)|))
  {
    Rooms();
    TakesSized(pkt, c, 4, bs);
  }

  /** Decoding an encoded bundle gives every field back, whatever follows. */
  lemma DecodesEncoded(f: Fields, tail: Bytes)
    requires Fits(f) && |BundleBytes(f) + tail| < 0x8000_0000
    ensures Decode(BundleBytes(f) + tail) == Decoded(f)
  {
    var pkt := BundleBytes(f) + tail;
    var c0 := Cursor(0, true, false);
    var c1 := c0.(off := |ConnectionBytes(f)|);
    var c2 := c1.(off := c1.off + |LineBytes(f)|);
    assert At(BundleBytes(f), pkt, 0);
    AtHalves(ConnectionBytes(f) + LineBytes(f), PayloadBytes(f), pkt, 0);
    AtHalves(ConnectionBytes(f), LineBytes(f), pkt, 0);
    TakesConnection(pkt, c0, f);
    TakesLine(pkt, c1, f);
    TakesPayload(pkt, c2, f);
  }

  lemma ConnectionStood(pkt: Bytes, c: Cursor, f: Fields)
    requires Within(pkt, c) && Sound(TakeConnection(pkt, c).cursor)
    requires var r := TakeConnection(pkt, c); f.addr == r.addr && f.cport == r.cport && f.sport == r.sport
    ensures Sound(c) && At(ConnectionBytes(f), pkt, c.off)
    ensures TakeConnection(pkt, c).cursor.off == c.off + |ConnectionBytes(f)|
    ensures |f.addr| < 0x1_0000 && f.cport < 0x1_0000 && f.sport < 0x1_0000
  {
    hide Take, TakeSized, At, LE, GetLE, Sized, Room;
    Rooms();
    var addr := TakeSized(pkt, c, 2);
    var cport := Take(pkt, addr.cursor, 2);
    var sport := Take(pkt, cport.cursor, 2);
    Taken(pkt, cport.cursor, 2);
    Taken(pkt, addr.cursor, 2);
    TakenSized(pkt, c, 2);
    ReadWritesBack(cport.bytes);
    ReadWritesBack(sport.bytes);
    Glue(Sized(2, f.addr), LE(f.cport, 2), pkt, c.off);
    Glue(Sized(2, f.addr) + LE(f.cport, 2), LE(f.sport, 2), pkt, c.off);
  }

  lemma LineStood(pkt: Bytes, c: Cursor, f: Fields)
    requires Within(pkt, c) && Sound(TakeLine(pkt, c).cursor)
    requires var r := TakeLine(pkt, c); f.method_ == r.method_ && f.proto == r.proto
    ensures Sound(c) && At(LineBytes(f), pkt, c.off) && TakeLine(pkt, c).cursor.off == c.off + |LineBytes(f)|
    ensures |f.method_| < 0x100 && |f.proto| < 0x100
  {
    hide TakeSized, Sized, Room, At;
    Rooms();
    var m := TakeSized(pkt, c, 1);
    TakenSized(pkt, m.cursor, 1);
    TakenSized(pkt, c, 1);
    Glue(Sized(1, f.method_), Sized(1, f.proto), pkt, c.off);
  }

  lemma PayloadStood(pkt: Bytes, c: Cursor, f: Fields)
    requires Within(pkt, c) && Sound(TakePayload(pkt, c).cursor)
    requires var r := TakePayload(pkt, c); f.url == r.url && f.hdr == r.hdr && f.body == r.body
    ensures Sound(c) && At(PayloadBytes(f), pkt, c.off)
    ensures |f.url| < 0x1_0000_0000 && |f.hdr| < 0x1_0000_0000 && |f.body| < 0x1_0000_0000
  {
    hide TakeSized, At, Sized, Room;
    Rooms();
    var url := TakeSized(pkt, c, 4);
    var hdr := TakeSized(pkt, url.cursor, 4);
    TakenSized(pkt, hdr.cursor, 4);
    TakenSized(pkt, url.cursor, 4);
    TakenSized(pkt, c, 4);
    Glue(Sized(4, f.url), Sized(4, f.hdr), pkt, c.off);
    Glue(Sized(4, f.url) + Sized(4, f.hdr), Sized(4, f.body), pkt, c.off);
  }

  /** The encoding is canonical: an accepted bundle begins with the encoding of what was decoded. */
  lemma DecodedIsEncoded(pkt: Bytes)
    requires |pkt| < 0x8000_0000 && Decode(pkt).Decoded?
    ensures var f := Decode(pkt).fields; Fits(f) && BundleBytes(f) <= pkt
  {
    hide TakeConnection, TakeLine, TakePayload, ConnectionBytes, LineBytes, PayloadBytes, At;
    var f := Decode(pkt).fields;
    var c0 := Cursor(0, true, false);
    var conn := TakeConnection(pkt, c0);
    var line := TakeLine(pkt, conn.cursor);
    PayloadStood(pkt, line.cursor, f);
    LineStood(pkt, conn.cursor, f);
    ConnectionStood(pkt, c0, f);
    Row(ConnectionBytes(f), LineBytes(f), PayloadBytes(f), pkt);
  }

  lemma Row(a: Bytes, b: Bytes, c: Bytes, t: Bytes)
    requires At(a, t, 0) && At(b, t, |a|) && At(c, t, |a| + |b|)
    ensures a + b + c <= t
  {
    Glue(a, b, t, 0);
    Glue(a + b, c, t, 0);
  }

  /** No bundle is a proper prefix of another, so one cut short is never taken for a whole one. */
  lemma NoBundleInsideAnother(f: Fields, g: Fields)
    requires Fits(f) && Fits(g) && |BundleBytes(g)| < 0x8000_0000 && BundleBytes(f) <= BundleBytes(g)
    ensures f == g
  {
    var part, whole := BundleBytes(f), BundleBytes(g);
    assert whole == part + whole[|part|..] && whole == whole + [];
    DecodesEncoded(f, whole[|part|..]);
    DecodesEncoded(g, []);
  }

  lemma CutBundlesAreRefused(f: Fields, n: nat)
    requires Fits(f) && n < |BundleBytes(f)| < 0x8000_0000
    ensures !Decode(BundleBytes(f)[..n]).Decoded?
  {
    var whole := BundleBytes(f);
    if Decode(whole[..n]).Decoded? {
      DecodedIsEncoded(whole[..n]);
      NoBundleInsideAnother(Decode(whole[..n]).fields, f);
    }
  }
}
