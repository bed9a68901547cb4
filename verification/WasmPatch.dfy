/** Raising the initial memory of a WebAssembly binary in place of its old memory section. */
module WasmPatch {
  import opened Bytes
  import opened Uleb
  import opened Wire
  import opened Wrappers

  datatype Fault = NotWasm | UlebTooLarge | RangeError

  const SECTION_MEMORY: byte := 5

  predicate IsWasm(wasm: Bytes) {
    |wasm| >= 8 && wasm[0] == 0x00 && wasm[1] == 0x61 && wasm[2] == 0x73 && wasm[3] == 0x6D
  }

  // ---------------------------------------------------------------- walking the sections

  /** A section: its id byte, and its content up to `end`. */
  datatype Place = Place(idAt: nat, start: nat, end: nat)

  /** The first memory section at or behind the section that starts at `i`. */
  function FindMemory(wasm: Bytes, i: nat): Result<Option<Place>, Fault>
    decreases |wasm| - i
  {
    if i >= |wasm| then Ok(None)
    else
      match ReadUleb(wasm, i + 1)
      case TooLarge => Err(UlebTooLarge)
      case Number(size, after) =>
        if wasm[i] == SECTION_MEMORY then Ok(Some(Place(i, after, after + size)))
        else FindMemory(wasm, after + size)
  }

  lemma WalkStep(wasm: Bytes, i: nat)
    ensures i >= |wasm| ==> FindMemory(wasm, i) == Ok(None)
    ensures i < |wasm| && ReadUleb(wasm, i + 1).TooLarge? ==> FindMemory(wasm, i) == Err(UlebTooLarge)
    ensures i < |wasm| && ReadUleb(wasm, i + 1).Number? ==>
              var Number(size, after) := ReadUleb(wasm, i + 1);
              FindMemory(wasm, i) ==
                if wasm[i] == SECTION_MEMORY then Ok(Some(Place(i, after, after + size))) else FindMemory(wasm, after + size)
  {
  }

  /** Where the section with this id and content start has its id byte; -1 if there is none. */
  function SectionIdAt(wasm: Bytes, i: nat, contentStart: nat, id: byte): Result<int, Fault>
    decreases |wasm| - i
  {
    if i >= |wasm| then Ok(-1)
    else
      match ReadUleb(wasm, i + 1)
      case TooLarge => Err(UlebTooLarge)
      case Number(size, after) =>
        if wasm[i] == id && after == contentStart then Ok(i) else SectionIdAt(wasm, after + size, contentStart, id)
  }

  method FindSectionIdIndex(wasm: Bytes, contentStart: nat, id: byte) returns (r: Result<int, Fault>)
    ensures r == SectionIdAt(wasm, 8, contentStart, id)
  {
    var i := 8;
    while i < |wasm|
      invariant SectionIdAt(wasm, 8, contentStart, id) == SectionIdAt(wasm, i, contentStart, id)
    {
      var sid, idByte := wasm[i], i;
      var read := ReadULEB(wasm, i + 1);
      if read.TooLarge? {
        return Err(UlebTooLarge);
      }
      var Number(size, after) := read;
      if sid == id && after == contentStart {
        return Ok(idByte);
      }
      i := after + size;
    }
    return Ok(-1);
  }

  // ---------------------------------------------------------------- reading the pages

  /** The `min` of a memory section's only entry; None when it does not have exactly one. */
  function MinAt(wasm: Bytes, start: nat): Result<Option<nat>, Fault> {
    match ReadUleb(wasm, start)
    case TooLarge => Err(UlebTooLarge)
    case Number(count, afterCount) =>
      if count != 1 then Ok(None)
      else
        match ReadUleb(wasm, afterCount + 1)
        case TooLarge => Err(UlebTooLarge)
        case Number(min, _) => Ok(Some(min))
  }

  function InitialPages(wasm: Bytes): Result<Option<nat>, Fault> {
    if !IsWasm(wasm) then Ok(None)
    else
      match FindMemory(wasm, 8)
      case Err(e) => Err(e)
      case Ok(None) => Ok(None)
      case Ok(Some(place)) => MinAt(wasm, place.start)
  }

  method ReadInitialMemoryPages(wasm: Bytes) returns (r: Result<Option<nat>, Fault>)
    ensures r == InitialPages(wasm)
  {
    if |wasm| < 8 || wasm[0] != 0x00 || wasm[1] != 0x61 || wasm[2] != 0x73 || wasm[3] != 0x6D {
      return Ok(None);
    }
    var i := 8;
    while i < |wasm|
      invariant FindMemory(wasm, 8) == FindMemory(wasm, i)
    {
      var sectionId := wasm[i];
      var read := ReadULEB(wasm, i + 1);
      if read.TooLarge? {
        return Err(UlebTooLarge);
      }
      var Number(size, after) := read;
      if sectionId == SECTION_MEMORY {
        var counted := ReadULEB(wasm, after);
        if counted.TooLarge? {
          return Err(UlebTooLarge);
        }
        if counted.value != 1 {
          return Ok(None);
        }
        var minimum := ReadULEB(wasm, counted.after + 1);
        if minimum.TooLarge? {
          return Err(UlebTooLarge);
        }
        return Ok(Some(minimum.value));
      }
      i := after + size;
    }
    return Ok(None);
  }

  // ---------------------------------------------------------------- patching

  /** `subarray(from, to)`: the bounds are clamped. */
  function Window(bs: Bytes, from: nat, to: nat): Bytes {
    var hi := if to < |bs| then to else |bs|;
    if from <= hi then bs[from..hi] else []
  }

  /** A fresh buffer of `n` bytes with `bs` at its start. */
  function Filled(bs: Bytes, n: nat): Bytes
    requires |bs| <= n
  {
    bs + seq(n - |bs|, _ => 0)
  }

  /** The new memory section behind its size: count, flags, the new `min`, and what followed the old one. */
  function NewContent(flags: byte, pages: int, max: Bytes): Bytes {
    [1, flags] + WriteUleb(ToUint32(pages)) + max
  }

  function PatchedAt(wasm: Bytes, start: nat, end: nat, pages: int): Result<Bytes, Fault> {
    match ReadUleb(wasm, start)
    case TooLarge => Err(UlebTooLarge)
    case Number(count, afterCount) =>
      if count != 1 then Ok(wasm)
      else
        match ReadUleb(wasm, afterCount + 1)
        case TooLarge => Err(UlebTooLarge)
        case Number(min, afterMin) =>
          var flags := ByteAt(wasm, afterCount);
          if min >= pages then Ok(wasm)
          else if flags % 2 == 1 && end < afterMin then Err(RangeError)
          else
            WindowFits(wasm, afterMin, end);
            var max := if flags % 2 == 1 then Filled(Window(wasm, afterMin, end), end - afterMin) else [];
            var content := NewContent(flags, pages, max);
            match SectionIdAt(wasm, 8, start, SECTION_MEMORY)
            case Err(e) => Err(e)
            case Ok(at) =>
              if at < 0 then Ok(wasm)
              else Ok(Window(wasm, 0, at + 1) + WriteUleb(ToUint32(|content|)) + content + Window(wasm, end, |wasm|))
  }

  lemma WindowFits(bs: Bytes, from: nat, to: nat)
    ensures from <= to ==> |Window(bs, from, to)| <= to - from
  {
  }

  function Patched(wasm: Bytes, pages: int): Result<Bytes, Fault> {
    if !IsWasm(wasm) then Err(NotWasm) else PatchedFrom(wasm, 8, pages)
  }

  /** The patch of a binary whose sections are walked from `i` on. */
  function PatchedFrom(wasm: Bytes, i: nat, pages: int): Result<Bytes, Fault> {
    match FindMemory(wasm, i)
    case Err(e) => Err(e)
    case Ok(None) => Ok(wasm)
    case Ok(Some(place)) => PatchedAt(wasm, place.start, place.end, pages)
  }

  lemma PatchStarts(wasm: Bytes, pages: int)
    ensures Patched(wasm, pages) ==
              if |wasm| < 8 || wasm[0] != 0x00 || wasm[1] != 0x61 || wasm[2] != 0x73 || wasm[3] != 0x6D then Err(NotWasm)
              else PatchedFrom(wasm, 8, pages)
  {
  }

  lemma PatchStep(wasm: Bytes, i: nat, pages: int)
    ensures i >= |wasm| ==> PatchedFrom(wasm, i, pages) == Ok(wasm)
    ensures i < |wasm| && ReadUleb(wasm, i + 1).TooLarge? ==> PatchedFrom(wasm, i, pages) == Err(UlebTooLarge)
    ensures i < |wasm| && ReadUleb(wasm, i + 1).Number? ==>
              var Number(size, after) := ReadUleb(wasm, i + 1);
              PatchedFrom(wasm, i, pages) ==
                if wasm[i] == SECTION_MEMORY then PatchedAt(wasm, after, after + size, pages)
                else PatchedFrom(wasm, after + size, pages)
  {
    hide ReadUleb, PatchedAt, FindMemory;
    WalkStep(wasm, i);
  }

  method PatchInitialMemory(wasm: Bytes, pages: int) returns (r: Result<Bytes, Fault>)
    ensures r == Patched(wasm, pages)
  {
    PatchStarts(wasm, pages);
    hide *;
    if |wasm| < 8 || wasm[0] != 0x00 || wasm[1] != 0x61 || wasm[2] != 0x73 || wasm[3] != 0x6D {
      return Err(NotWasm);
    }
    var i := 8;
    while i < |wasm|
      invariant PatchedFrom(wasm, 8, pages) == PatchedFrom(wasm, i, pages)
    {
      var sectionId := wasm[i];
      var read := ReadULEB(wasm, i + 1);
      PatchStep(wasm, i, pages);
      if read.TooLarge? {
        return Err(UlebTooLarge);
      }
      var Number(size, after) := read;
      if sectionId == SECTION_MEMORY {
        r := PatchMemorySection(wasm, after, after + size, pages);
        return;
      }
      i := after + size;
    }
    PatchStep(wasm, i, pages);
    return Ok(wasm);
  }

  method PatchMemorySection(wasm: Bytes, start: nat, end: nat, pages: int) returns (r: Result<Bytes, Fault>)
    ensures r == PatchedAt(wasm, start, end, pages)
  {
    var counted := ReadULEB(wasm, start);
    if counted.TooLarge? {
      return Err(UlebTooLarge);
    }
    if counted.value != 1 {
      return Ok(wasm);
    }
    var p := counted.after;
    var flags := ByteAt(wasm, p);
    p := p + 1;
    var minimum := ReadULEB(wasm, p);
    if minimum.TooLarge? {
      return Err(UlebTooLarge);
    }
    var Number(currentMin, afterMin) := minimum;
    if currentMin >= pages {
      return Ok(wasm);
    }
    var newMinBytes := WriteULEB(pages);
    var maxBytes := if flags % 2 == 1 then end - afterMin else 0;
    if maxBytes < 0 {
      return Err(RangeError);
    }
    WindowFits(wasm, afterMin, end);
    var content := BuildContent(flags, newMinBytes, Window(wasm, afterMin, end), maxBytes);
    var sizeBytes := WriteULEB(|content|);
    var sectionIdIdx := FindSectionIdIndex(wasm, start, SECTION_MEMORY);
    if sectionIdIdx.Err? {
      return Err(sectionIdIdx.error);
    }
    if sectionIdIdx.value < 0 {
      return Ok(wasm);
    }
    var out := Splice(Window(wasm, 0, sectionIdIdx.value + 1), sizeBytes, content, Window(wasm, end, |wasm|));
    return Ok(out);
  }

  /** Fills the new section's buffer; `max` is copied only when there are bytes to copy. */
  method BuildContent(flags: byte, newMin: Bytes, max: Bytes, maxBytes: nat) returns (content: Bytes)
    requires maxBytes > 0 ==> |max| <= maxBytes
    ensures content == [1, flags] + newMin + (if maxBytes > 0 then Filled(max, maxBytes) else [])
  {
    var newContent := new byte[2 + |newMin| + maxBytes](_ => 0);
    newContent[0] := 1;
    newContent[1] := flags;
    Set(newContent, newMin, 2);
    ghost var front := [1, flags] + newMin;
    assert newContent[..] == front + seq(maxBytes, _ => 0);
    if maxBytes > 0 {
      Set(newContent, max, 2 + |newMin|);
      assert newContent[..] == front + Filled(max, maxBytes);
    }
    return newContent[..];
  }

  method Splice(before: Bytes, size: Bytes, content: Bytes, after: Bytes) returns (r: Bytes)
    ensures r == before + size + content + after
  {
    var out := new byte[|before| + |size| + |content| + |after|](_ => 0);
    var o := 0;
    Set(out, before, o);
    o := o + |before|;
    Set(out, size, o);
    o := o + |size|;
    assert out[..o] == before + size;
    Set(out, content, o);
    o := o + |content|;
    assert out[..o] == before + size + content;
    Set(out, after, o);
    return out[..];
  }
}
