/** The request bundle as the JavaScript side writes it, and what the Go side gets out of it. */
module RequestBundle {
  import opened Bytes
  import opened Wire
  import opened Headers
  import opened Bundle
  import opened JsText
  import opened Wrappers

  /** The request as the adapters describe it. */
  datatype RequestInfo = RequestInfo(
    method_: JsString, protocol: Option<JsString>, remoteAddr: Option<JsString>,
    remotePort: Option<int>, serverPort: Option<int>, url: JsString, headers: seq<(JsString, JsString)>)

  datatype RequestBody = NoBody | Text(text: JsString) | Raw(bytes: Bytes)

  const SCRATCH_CAP := 65536

  const HTTP_1_1: JsString := [72, 84, 84, 80, 47, 49, 46, 49]

  // ---------------------------------------------------------------- what is to be sent

  /** `port & 0xffff`. */
  function Port(port: Option<int>): nat {
    OrElse(port, 0) % 0x1_0000
  }

  function HeadersOf(hs: seq<(JsString, JsString)>): (r: seq<Header>)
    ensures |r| == |hs|
  {
    seq(|hs|, k requires 0 <= k < |hs| => Header(ToUtf8(hs[k].0), ToUtf8(hs[k].1)))
  }

  function BodyBytes(body: RequestBody): Bytes {
    match body
    case NoBody => []
    case Text(text) => ToUtf8(text)
    case Raw(bytes) => bytes
  }

  /** Method, protocol and address are clipped to what their length fields can say; the rest is sent as it is. */
  function FieldsOf(req: RequestInfo, body: RequestBody): Fields {
    Fields(
      Clipped(ToUtf8(OrElse(req.remoteAddr, [])), 65535), Port(req.remotePort), Port(req.serverPort),
      Clipped(ToUtf8(req.method_), 255), Clipped(ToUtf8(OrElse(req.protocol, HTTP_1_1)), 255),
      ToUtf8(req.url), PacketBytes(HeadersOf(req.headers)), BodyBytes(body))
  }

  // ---------------------------------------------------------------- the header packet and its buffer

  class HeaderBuf {
    var current: array<byte>

    constructor (size: nat)
      ensures fresh(current) && current.Length == size
    {
      current := new byte[size](_ => 0);
    }
  }

  /** Sizes the packet, then fills the caller's buffer if it is long enough, else a fresh one the caller keeps. */
  method EncodeHeaders(headers: seq<(JsString, JsString)>, buf: HeaderBuf?) returns (out: array<byte>, total: nat)
    modifies buf, if buf == null then {} else {buf.current}
    ensures total == |PacketBytes(HeadersOf(headers))| <= out.Length
    ensures out[..total] == PacketBytes(HeadersOf(headers))
    ensures if buf != null && old(buf.current).Length >= total then out == old(buf.current) else fresh(out)
    ensures buf != null ==> buf.current == out
  {
    hide HeadersOf;
    var entries := HeadersOf(headers);
    assert |PacketBytes(entries)| == 4 + |EntriesBytes(entries)|;
    hide PacketBytes, EntriesBytes;
    total := 4;
    var k := 0;
    while k < |entries|
      invariant 0 <= k <= |entries| && total == 4 + |EntriesBytes(entries[..k])|
      invariant buf != null ==> buf.current == old(buf.current)
    {
      EntriesGrow(entries, k);
      total := total + 4 + |entries[k].name| + 4 + |entries[k].value|;
      k := k + 1;
    }
    assert entries[..k] == entries;
    if buf != null && buf.current.Length >= total {
      out := buf.current;
    } else {
      out := new byte[total](_ => 0);
      if buf != null {
        buf.current := out;
      }
    }
    FillPacket(out, entries);
  }

  // ---------------------------------------------------------------- the encoder and its scratch buffer

  /** A range of the scratch buffer, or bytes of its own. */
  datatype Piece = InScratch(lo: nat, hi: nat) | Fresh(bytes: Bytes)

  /** The ranges have no byte in common. */
  predicate Apart(p: Piece, q: Piece) {
    p.InScratch? && q.InScratch? ==> p.hi <= q.lo || q.hi <= p.lo
  }

  class BundleEncoder {
    const scratch: array<byte>

    constructor ()
      ensures scratch.Length == SCRATCH_CAP && fresh(scratch)
    {
      scratch := new byte[SCRATCH_CAP];
    }

    predicate IsPiece(p: Piece) {
      p.InScratch? ==> p.lo <= p.hi <= scratch.Length
    }

    /** The bytes a piece shows now. */
    function Content(p: Piece): Bytes
      requires IsPiece(p)
      reads scratch
    {
      if p.InScratch? then scratch[p.lo..p.hi] else p.bytes
    }

    /** The piece does not reach beyond `off` in the scratch buffer. */
    predicate Below(p: Piece, off: nat) {
      IsPiece(p) && (p.InScratch? ==> p.hi <= off)
    }

    /** Writes `s` at `offset` if its worst case fits there; what stands in front of `offset` is not touched. */
    method WriteScratch(s: JsString, offset: nat) returns (p: Piece, len: nat)
      requires scratch.Length == SCRATCH_CAP
      modifies scratch
      ensures IsPiece(p) && Content(p) == ToUtf8(s) && len == |ToUtf8(s)|
      ensures p.InScratch? ==> p.lo == offset && p.hi == offset + len
      ensures forall q: Piece :: Below(q, offset) ==> Content(q) == old(Content(q))
    {
      var bytes := ToUtf8(s);
      len := |bytes|;
      var worstCase := |s| * 4;
      if offset + worstCase > SCRATCH_CAP {
        return Fresh(bytes), len;
      }
      Utf8AtMost(s);
      Set(scratch, bytes, offset);
      assert forall k :: 0 <= k < offset ==> scratch[k] == old(scratch[k]);
      p := InScratch(offset, offset + len);
    }

    /** Clips a piece to a range of its own beginning. */
    method Clip(p: Piece, max: nat) returns (q: Piece)
      requires IsPiece(p)
      ensures IsPiece(q) && Content(q) == Clipped(Content(p), max)
      ensures if p.InScratch? then q.InScratch? && q.lo == p.lo && q.hi <= p.hi else q.Fresh?
    {
      var r := TruncateUtf8(Content(p), max);
      assert r == Clipped(Content(p), max) && r == Content(p)[..|r|];
      hide Clipped;
      match p {
        case InScratch(lo, hi) =>
          q := InScratch(lo, lo + |r|);
          assert scratch[lo..lo + |r|] == scratch[lo..hi][..|r|];
        case Fresh(_) => q := Fresh(r);
      }
    }

    /** The four strings end to end: when the last one is written the others still show their own bytes. */
    method LayOut(req: RequestInfo) returns (m: Piece, proto: Piece, addr: Piece, url: Piece)
      requires scratch.Length == SCRATCH_CAP
      modifies scratch
      ensures IsPiece(m) && IsPiece(proto) && IsPiece(addr) && IsPiece(url)
      ensures Apart(m, proto) && Apart(m, addr) && Apart(m, url) && Apart(proto, addr) && Apart(proto, url) && Apart(addr, url)
      ensures Content(m) == Clipped(ToUtf8(req.method_), 255)
      ensures Content(proto) == Clipped(ToUtf8(OrElse(req.protocol, HTTP_1_1)), 255)
      ensures Content(addr) == Clipped(ToUtf8(OrElse(req.remoteAddr, [])), 65535)
      ensures Content(url) == ToUtf8(req.url)
    {
      var off := 0;
      m, off := WriteField(req.method_, off, 255);
      proto, off := WriteField(OrElse(req.protocol, HTTP_1_1), off, 255);
      addr, off := WriteField(OrElse(req.remoteAddr, []), off, 65535);
      url, off := WriteScratch(req.url, off);
    }

    /** A string written behind the ones before it, then clipped; `next` is where the following one goes. */
    method WriteField(s: JsString, off: nat, max: nat) returns (p: Piece, next: nat)
      requires scratch.Length == SCRATCH_CAP
      modifies scratch
      ensures next == off + |ToUtf8(s)| && Below(p, next) && (p.InScratch? ==> off <= p.lo)
      ensures Content(p) == Clipped(ToUtf8(s), max)
      ensures forall q: Piece :: Below(q, off) ==> Content(q) == old(Content(q))
    {
      var enc, len := WriteScratch(s, off);
      next := off + len;
      p := Clip(enc, max);
    }

    method EncodeRequestBundle(req: RequestInfo, body: RequestBody, headerBuf: HeaderBuf?) returns (out: array<byte>)
      requires scratch.Length == SCRATCH_CAP && (headerBuf != null ==> headerBuf.current != scratch)
      modifies scratch, headerBuf, if headerBuf == null then {} else {headerBuf.current}
      ensures fresh(out) && out[..] == BundleBytes(FieldsOf(req, body))
      ensures out.Length < 0x8000_0000 ==> Decode(out[..]).Decoded? && Arrived(Decode(out[..]).fields, req, body)
    {
      hide BundleBytes, ConnectionBytes, LineBytes, PacketBytes, Clipped, ToUtf8;
      var m, proto, addr, url := LayOut(req);
      ghost var f := FieldsOf(req, body);
      assert Content(m) == f.method_ && Content(proto) == f.proto && Content(addr) == f.addr && Content(url) == f.url;
      var hdrBuf, hdrLen := EncodeHeaders(req.headers, headerBuf);
      var hdr, bodyBytes := hdrBuf[..hdrLen], BodyBytes(body);
      assert hdr == f.hdr && bodyBytes == f.body && Content(m) == f.method_;
      BundleLength(f);
      hide FieldsOf, Apart;
      var total := 2 + |Content(addr)| + 2 + 2 + 1 + |Content(m)| + 1 + |Content(proto)|
                   + 4 + |Content(url)| + 4 + |hdr| + 4 + |bodyBytes|;
      out := new byte[total](_ => 0);
      var o := PutConnection(out, Content(addr), Port(req.remotePort), Port(req.serverPort), f);
      o := PutLine(out, o, Content(m), Content(proto), f);
      PutPayload(out, o, Content(url), hdr, bodyBytes, f);
      hide Decode, Arrived;
      if out.Length < 0x8000_0000 {
        ArrivesAsSent(req, body);
      }
    }
  }

  lemma BundleLength(f: Fields)
    ensures |ConnectionBytes(f)| == 6 + |f.addr| && |LineBytes(f)| == 2 + |f.method_| + |f.proto|
    ensures |BundleBytes(f)| == |ConnectionBytes(f)| + |LineBytes(f)| + 12 + |f.url| + |f.hdr| + |f.body|
  {
  }

  lemma LineLaidOut(done: Bytes, f: Fields)
    ensures done + LE(|f.method_|, 1) + f.method_ + LE(|f.proto|, 1) + f.proto == done + LineBytes(f)
  {
  }

  lemma PayloadLaidOut(done: Bytes, f: Fields)
    ensures done + LE(|f.url|, 4) + f.url + LE(|f.hdr|, 4) + f.hdr + LE(|f.body|, 4) + f.body == done + PayloadBytes(f)
  {
    assert done + LE(|f.url|, 4) + f.url == done + Sized(4, f.url);
    assert done + Sized(4, f.url) + LE(|f.hdr|, 4) + f.hdr == done + Sized(4, f.url) + Sized(4, f.hdr);
  }

  method PutConnection(out: array<byte>, addr: Bytes, cport: nat, sport: nat, ghost f: Fields) returns (o: nat)
    requires addr == f.addr && cport == f.cport && sport == f.sport && |BundleBytes(f)| == out.Length
    modifies out
    ensures o == |ConnectionBytes(f)| && out[..o] == ConnectionBytes(f)
  {
    BundleLength(f);
    hide LE, BundleBytes;
    o := Append(out, LE(|addr|, 2), 0, []);
    o := Append(out, addr, o, out[..o]);
    o := Append(out, LE(cport, 2), o, out[..o]);
    o := Append(out, LE(sport, 2), o, out[..o]);
  }

  method PutLine(out: array<byte>, at: nat, m: Bytes, proto: Bytes, ghost f: Fields) returns (o: nat)
    requires m == f.method_ && proto == f.proto && |BundleBytes(f)| == out.Length
    requires at == |ConnectionBytes(f)| && out[..at] == ConnectionBytes(f)
    modifies out
    ensures o == at + |LineBytes(f)| && out[..o] == ConnectionBytes(f) + LineBytes(f)
  {
    BundleLength(f);
    LineLaidOut(out[..at], f);
    hide LE, BundleBytes, ConnectionBytes, LineBytes;
    o := Append(out, LE(|m|, 1), at, out[..at]);
    o := Append(out, m, o, out[..o]);
    o := Append(out, LE(|proto|, 1), o, out[..o]);
    o := Append(out, proto, o, out[..o]);
  }

  method PutPayload(out: array<byte>, at: nat, url: Bytes, hdr: Bytes, body: Bytes, ghost f: Fields)
    requires url == f.url && hdr == f.hdr && body == f.body && |BundleBytes(f)| == out.Length
    requires at == |ConnectionBytes(f) + LineBytes(f)| && out[..at] == ConnectionBytes(f) + LineBytes(f)
    modifies out
    ensures out[..] == BundleBytes(f)
  {
    BundleLength(f);
    PayloadLaidOut(out[..at], f);
    assert BundleBytes(f) == ConnectionBytes(f) + LineBytes(f) + PayloadBytes(f);
    hide LE, BundleBytes, ConnectionBytes, LineBytes, PayloadBytes;
    var o := Append(out, LE(|url|, 4), at, out[..at]);
    o := Append(out, url, o, out[..o]);
    o := Append(out, LE(|hdr|, 4), o, out[..o]);
    o := Append(out, hdr, o, out[..o]);
    o := Append(out, LE(|body|, 4), o, out[..o]);
    o := Append(out, body, o, out[..o]);
    assert out[..] == out[..o];
  }

  // ---------------------------------------------------------------- both sides together

  /** The text `s` cut to its longest run of whole characters within `max` bytes. */
  ghost predicate IsClipped(bs: Bytes, s: JsString, max: nat) {
    var runes := CodePoints(s);
    exists n: nat :: n <= |runes| && bs == EncodeAll(runes[..n]) && |bs| <= max &&
                     (n < |runes| ==> |EncodeAll(runes[..n + 1])| > max)
  }

  /** The packet parses to the headers of the request, in order. */
  ghost predicate CarriesHeaders(pkt: Bytes, headers: seq<(JsString, JsString)>) {
    && |pkt| < 0x8000_0000 && Parse(pkt).Parsed?
    && var hs := Parse(pkt).headers;
       |hs| == |headers| && forall k :: 0 <= k < |hs| ==>
         hs[k].name == EncodeAll(CodePoints(headers[k].0)) && hs[k].value == EncodeAll(CodePoints(headers[k].1))
  }

  /** What the Go side has to find in the fields it decodes. */
  ghost predicate Arrived(g: Fields, req: RequestInfo, body: RequestBody) {
    && IsClipped(g.method_, req.method_, 255)
    && IsClipped(g.proto, if req.protocol.Some? then req.protocol.value else [72, 84, 84, 80, 47, 49, 46, 49], 255)
    && IsClipped(g.addr, if req.remoteAddr.Some? then req.remoteAddr.value else [], 65535)
    && g.cport == (if req.remotePort.Some? then req.remotePort.value % 0x1_0000 else 0)
    && g.sport == (if req.serverPort.Some? then req.serverPort.value % 0x1_0000 else 0)
    && g.url == EncodeAll(CodePoints(req.url))
    && CarriesHeaders(g.hdr, req.headers)
    && match body
       case NoBody => g.body == []
       case Text(text) => g.body == EncodeAll(CodePoints(text))
       case Raw(bytes) => g.body == bytes
  }

  /** Clipping and masking keep the short fields within their length fields. */
  lemma ClipsFit(req: RequestInfo, body: RequestBody)
    ensures var f := FieldsOf(req, body);
            |f.addr| < 0x1_0000 && |f.method_| < 0x100 && |f.proto| < 0x100 && f.cport < 0x1_0000 && f.sport < 0x1_0000
  {
  }

  lemma HeadersArrive(headers: seq<(JsString, JsString)>)
    requires |PacketBytes(HeadersOf(headers))| < 0x8000_0000
    ensures CarriesHeaders(PacketBytes(HeadersOf(headers)), headers)
  {
    var pkt := PacketBytes(HeadersOf(headers));
    assert pkt + [] == pkt;
    ParsesEncoded(HeadersOf(headers), []);
    hide PacketBytes, Parse, EncodeAll, CodePoints;
  }

  /** Method, protocol and address arrive as their longest runs of whole characters within the limits. */
  lemma ArrivesInWholeCharacters(req: RequestInfo, body: RequestBody)
    ensures var f := FieldsOf(req, body);
            && IsClipped(f.method_, req.method_, 255)
            && IsClipped(f.proto, if req.protocol.Some? then req.protocol.value else [72, 84, 84, 80, 47, 49, 46, 49], 255)
            && IsClipped(f.addr, if req.remoteAddr.Some? then req.remoteAddr.value else [], 65535)
  {
    hide EncodeAll, CodePoints, Clipped, PacketBytes, IsClipped;
    WholeCharacters(req.method_, 255);
    WholeCharacters(OrElse(req.protocol, HTTP_1_1), 255);
    WholeCharacters(OrElse(req.remoteAddr, []), 65535);
  }

  lemma FieldsArrive(req: RequestInfo, body: RequestBody)
    requires |PacketBytes(HeadersOf(req.headers))| < 0x8000_0000
    ensures Arrived(FieldsOf(req, body), req, body)
  {
    hide EncodeAll, CodePoints, Clipped, PacketBytes, CarriesHeaders, IsClipped;
    ArrivesInWholeCharacters(req, body);
    HeadersArrive(req.headers);
  }

  /** Whatever the request, if its bundle fits the int32 length, the Go side decodes the method, protocol and address
      clipped between characters, the two ports modulo 2^16, the whole URL, every header in order, and the body. */
  lemma ArrivesAsSent(req: RequestInfo, body: RequestBody)
    requires |BundleBytes(FieldsOf(req, body))| < 0x8000_0000
    ensures var d := Decode(BundleBytes(FieldsOf(req, body))); d.Decoded? && Arrived(d.fields, req, body)
  {
    var f := FieldsOf(req, body);
    hide Decode, Clipped, ToUtf8, PacketBytes, Arrived;
    ClipsFit(req, body);
    BundleLength(f);
    assert Fits(f);
    FieldsArrive(req, body);
    hide BundleBytes, Fits, FieldsOf;
    assert BundleBytes(f) + [] == BundleBytes(f);
    DecodesEncoded(f, []);
  }

  lemma WholeCharacters(s: JsString, max: nat)
    ensures IsClipped(Clipped(ToUtf8(s), max), s, max)
  {
    ClipsBetweenCharacters(CodePoints(s), max);
    FittingIsMost(CodePoints(s), max);
    hide EncodeAll, Clipped, Fitting;
  }
}
