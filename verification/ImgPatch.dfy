/**
 imgpatch.c: the IMGDIFF2 format and its applier, with the two sinks of applypatch.c.

 zlib is a pair of functions: `inflate(s)` is the raw deflate stream at the front of `s` expanded,
 together with the number of bytes it occupied, and `deflate(p, d)` is what zlib makes of `d` with
 encoder parameters `p`.
 */
module ImgPatch {
  import opened Bytes
  import opened BsPatch

  datatype Inflated = Inflated(data: seq<byte>, used: nat)

  datatype Encoder = Encoder(level: int, method_: int, windowBits: int, memLevel: int, strategy: int)

  datatype Zlib = Zlib(inflate: seq<byte> -> Option<Inflated>, deflate: (Encoder, seq<byte>) -> seq<byte>) {
    /** inflate stops at the end of the stream, so what follows does not matter, and delivers what fits in memory. */
    ghost predicate WellBehaved() {
      forall s: seq<byte> :: inflate(s).Some? ==>
        && inflate(s).value.used <= |s| && inflate(s[..inflate(s).value.used]) == inflate(s)
        && |inflate(s).value.data| <= OFF_MAX
    }
  }

  lemma InflatePrefix(z: Zlib, s: seq<byte>)
    requires z.WellBehaved() && z.inflate(s).Some?
    ensures z.inflate(s).value.used <= |s| && z.inflate(s[..z.inflate(s).value.used]) == z.inflate(s)
  {
  }

  const IMGDIFF2: seq<byte> := [0x49, 0x4d, 0x47, 0x44, 0x49, 0x46, 0x46, 0x32]
  const CHUNK_NORMAL := 0
  const CHUNK_DEFLATE := 2
  const CHUNK_RAW := 3

  // ----- the sinks -----

  /**
   MemorySinkInfo, a buffer with the room left in it; or an open file, with the results that write() will give: a
   number of bytes, or zero or less for an error.  When the list is used up, write() takes everything.
   */
  datatype Sink = Memory(room: nat, bytes: seq<byte>) | File(bytes: seq<byte>, results: seq<int>)

  /** FileSink's loop for `len` bytes: how many are written, and the results left. */
  function Written(len: nat, results: seq<int>): (r: (nat, seq<int>))
    ensures r.0 <= len
    decreases |results|
  {
    if len == 0 then (0, results)
    else if results == [] then (len, [])
    else if results[0] <= 0 then (0, results[1..])
    else
      var w := if results[0] < len then results[0] else len;
      var more := Written(len - w, results[1..]);
      (w + more.0, more.1)
  }

  function Further(done: nat, w: (nat, seq<int>)): (r: (nat, seq<int>)) {
    (done + w.0, w.1)
  }

  lemma WrittenStep(len: nat, results: seq<int>)
    ensures len == 0 ==> Written(len, results) == (0, results)
    ensures len > 0 && results == [] ==> Written(len, results) == (len, []) && Written(0, []) == (0, [])
    ensures len > 0 && results != [] ==>
      var w := if results[0] < len then results[0] else len;
      Written(len, results) == if w <= 0 then (0, results[1..]) else Further(w, Written(len - w, results[1..]))
  {
  }

  /** What a sink returns for `data`, and what it is then. */
  function Accept(s: Sink, data: seq<byte>): (r: (int, Sink))
    ensures r.0 <= |data|
  {
    match s
    case Memory(room, bytes) => if |data| <= room then (|data|, Memory(room - |data|, bytes + data)) else (-1, s)
    case File(bytes, results) =>
      var w := Written(|data|, results);
      (w.0, File(bytes + data[..w.0], w.1))
  }

  /** `data` in pieces of at most `piece` bytes, all of which must be taken whole. */
  function AcceptPieces(s: Sink, data: seq<byte>, piece: nat): (r: Option<Sink>)
    requires piece > 0
    decreases |data|
  {
    if data == [] then Some(s)
    else
      var k := if piece < |data| then piece else |data|;
      var n := Accept(s, data[..k]);
      if n.0 == k then AcceptPieces(n.1, data[k..], piece) else None
  }

  /** The `token` of a sink function: a MemorySinkInfo or a file descriptor. */
  class Outlet {
    const inMemory: bool
    var buffer: array<byte>
    var pos: nat
    var file: seq<byte>
    var results: seq<int>

    ghost predicate Valid()
      reads this
    {
      pos <= buffer.Length
    }

    ghost function Value(): Sink
      requires Valid()
      reads this, buffer
    {
      if inMemory then Memory(buffer.Length - pos, buffer[..pos]) else File(file, results)
    }

    constructor (inMemory: bool, size: nat, results: seq<int>)
      ensures Valid() && fresh(buffer) && Value() == if inMemory then Memory(size, []) else File([], results)
    {
      this.inMemory := inMemory;
      buffer := new byte[size];
      pos, file, this.results := 0, [], results;
    }

    /** All or nothing. */
    method MemorySink(data: seq<byte>) returns (written: int)
      requires Valid() && inMemory
      modifies this, buffer
      ensures Valid() && buffer == old(buffer) && (written, Value()) == Accept(old(Value()), data)
    {
      if buffer.Length - pos < |data| {
        return -1;
      }
      forall i | 0 <= i < |data| {
        buffer[pos+i] := data[i];
      }
      pos := pos + |data|;
      assert buffer[..pos] == old(buffer[..pos]) + data;
      return |data|;
    }

    /** As much as write() takes before it fails. */
    method FileSink(data: seq<byte>) returns (done: nat)
      requires Valid() && !inMemory
      modifies this
      ensures Valid() && buffer == old(buffer) && (done as int, Value()) == Accept(old(Value()), data)
    {
      hide Written;
      done := 0;
      ghost var before := file;
      assert before + data[..0] == before;
      while done < |data|
        invariant done <= |data| && file == before + data[..done]
        invariant Written(|data|, old(results)) == Further(done, Written(|data| - done, results))
        invariant pos == old(pos) && buffer == old(buffer)
        decreases |results|, |data| - done
      {
        WrittenStep(|data| - done, results);
        var wrote := |data| - done;
        if results != [] {
          wrote := if results[0] < wrote then results[0] else wrote;
          results := results[1..];
        }
        if wrote <= 0 {
          return;
        }
        assert data[..done] + data[done..done+wrote] == data[..done+wrote];
        file := file + data[done..done+wrote];
        done := done + wrote;
      }
      WrittenStep(0, results);
    }

    method Write(data: seq<byte>) returns (n: int)
      requires Valid()
      modifies this, buffer
      ensures Valid() && buffer == old(buffer) && (n, Value()) == Accept(old(Value()), data)
    {
      if inMemory {
        n := MemorySink(data);
      } else {
        n := FileSink(data);
      }
    }

    /** Write in pieces of at most `piece` bytes, as the deflate loop does (lines 208-220). */
    method WritePieces(data: seq<byte>, piece: nat) returns (ok: bool)
      requires Valid() && piece > 0
      modifies this, buffer
      ensures Valid() && buffer == old(buffer)
      ensures var r := AcceptPieces(old(Value()), data, piece); ok == r.Some? && (ok ==> Value() == r.value)
    {
      hide Accept;
      var rest := data;
      while rest != []
        invariant Valid() && buffer == old(buffer)
        invariant AcceptPieces(Value(), rest, piece) == AcceptPieces(old(Value()), data, piece)
        decreases |rest|
      {
        var have := if piece < |rest| then piece else |rest|;
        var n := Write(rest[..have]);
        if n != have {
          return false;
        }
        rest := rest[have..];
      }
      return true;
    }
  }

  // ----- what an image patch means -----

  function Slice(s: seq<byte>, start: int, len: int): (r: Option<seq<byte>>) {
    if 0 <= start && 0 <= len && start + len <= |s| then Some(s[start..start+len]) else None
  }

  datatype Record =
    | NormalRecord(start: int, len: int, offset: int)
    | RawRecord(data: seq<byte>)
    | DeflateRecord(start: int, len: int, offset: int, expandedLen: int, enc: Encoder)

  datatype Parsed = Parsed(record: Record, next: nat)

  /** The record at `pos` and where the next one starts. */
  function ParseRecord(patch: seq<byte>, pos: nat): (r: Result<Parsed>)
    ensures r.Ok? ==> r.value.next <= |patch|
  {
    if pos + 4 > |patch| then Failed
    else
      var kind := Read(patch[pos..pos+4]);
      var p := pos + 4;
      if kind == CHUNK_NORMAL then
        if p + 24 > |patch| then Failed
        else Ok(Parsed(NormalRecord(Read(patch[p..p+8]), Read(patch[p+8..p+16]), Read(patch[p+16..p+24])), p + 24))
      else if kind == CHUNK_RAW then
        if p + 4 > |patch| then Failed
        else
          var len := Read(patch[p..p+4]);
          if p + 4 + len > |patch| then Failed
          else if len < 0 then Undefined
          else Ok(Parsed(RawRecord(patch[p+4..p+4+len]), p + 4 + len))
      else if kind == CHUNK_DEFLATE then
        if p + 60 > |patch| then Failed
        else
          var enc := Encoder(Read(patch[p+40..p+44]), Read(patch[p+44..p+48]), Read(patch[p+48..p+52]),
            Read(patch[p+52..p+56]), Read(patch[p+56..p+60]));
          Ok(Parsed(DeflateRecord(Read(patch[p..p+8]), Read(patch[p+8..p+16]), Read(patch[p+16..p+24]),
            Read(patch[p+24..p+32]), enc), p + 60))
      else Failed
  }

  /** What a record yields by itself.  The part of the source that it names is not compared with the source's size. */
  function Output(bz: Bzip, z: Zlib, src: seq<byte>, patch: seq<byte>, r: Record): (o: Result<seq<byte>>) {
    match r
    case RawRecord(data) => Ok(data)
    case NormalRecord(start, len, offset) =>
      (match Slice(src, start, len)
       case None => Undefined
       case Some(s) => Decode(bz, s, patch, offset))
    case DeflateRecord(start, len, offset, expandedLen, enc) =>
      match Slice(src, start, len)
      case None => Undefined
      case Some(s) =>
        match z.inflate(s)
        case None => Failed
        case Some(x) =>
          if |x.data| != expandedLen then Failed
          else
            match Decode(bz, x.data, patch, offset)
            case Ok(t) => Ok(z.deflate(enc, t))
            case other => other
  }

  /** The size of the buffer that the output goes through. */
  function Piece(r: Record): (n: nat)
    ensures n > 0
  {
    match r
    case RawRecord(data) => if data == [] then 1 else |data|
    case NormalRecord(_, _, _) => 1
    case DeflateRecord(_, _, _, expandedLen, _) => if expandedLen < 32768 then 32768 else expandedLen
  }

  /** What has reached the sink and what has gone into the digest. */
  datatype Work = Work(sink: Sink, hashed: seq<byte>)

  /**
   Lines 69-228.  A CHUNK_NORMAL record that does not decode, or that the sink does not take whole, goes
   unnoticed (line 81 ignores the result): what the sink took of it stays, and the digest leaves it out.
   */
  function ApplyRecord(bz: Bzip, z: Zlib, src: seq<byte>, patch: seq<byte>, r: Record, w: Work): (o: Result<Work>) {
    match Output(bz, z, src, patch, r)
    case Ok(d) =>
      if r.NormalRecord? then
        var n := Accept(w.sink, d);
        Ok(Work(n.1, if n.0 < |d| then w.hashed else w.hashed + d))
      else
        (match AcceptPieces(w.sink, d, Piece(r))
         case Some(t) => Ok(Work(t, w.hashed + d))
         case None => Failed)
    case Failed => if r.NormalRecord? then Ok(w) else Failed
    case Hangs => Hangs
    case Undefined => Undefined
  }

  function ApplyRecords(bz: Bzip, z: Zlib, src: seq<byte>, patch: seq<byte>, pos: nat, count: int, w: Work)
    : (o: Result<Work>)
    decreases count
  {
    if count <= 0 then Ok(w)
    else
      match ParseRecord(patch, pos)
      case Ok(p) =>
        (match ApplyRecord(bz, z, src, patch, p.record, w)
         case Ok(v) => ApplyRecords(bz, z, src, patch, p.next, count - 1, v)
         case other => other)
      case Failed => Failed
      case Hangs => Hangs
      case Undefined => Undefined
  }

  /** What ApplyImagePatch does to a sink and a digest. */
  function ApplyImage(bz: Bzip, z: Zlib, src: seq<byte>, patch: seq<byte>, w: Work): (o: Result<Work>) {
    if |patch| < 12 || patch[..8] != IMGDIFF2 then Failed
    else ApplyRecords(bz, z, src, patch, 12, Read(patch[8..12]), w)
  }

  // ----- the applier -----

  /** ApplyBSDiffPatch (bspatch.c 100-121): short writes are reported, before the digest is updated. */
  function ApplyDelta(bz: Bzip, src: seq<byte>, patch: seq<byte>, offset: int, w: Work): (o: Result<Work>) {
    match Decode(bz, src, patch, offset)
    case Ok(d) =>
      var n := Accept(w.sink, d);
      if n.0 < |d| then Failed else Ok(Work(n.1, w.hashed + d))
    case Failed => Failed
    case Hangs => Hangs
    case Undefined => Undefined
  }

  /** What a failed call leaves in the sink. */
  function AfterFailure(d: Result<seq<byte>>, s: Sink): (r: Sink) {
    if d.Ok? then Accept(s, d.value).1 else s
  }

  method ApplyBSDiffPatch(bz: Bzip, src: seq<byte>, patch: seq<byte>, offset: int, out: Outlet, hashed: seq<byte>)
    returns (r: Result<()>, hashed': seq<byte>)
    requires out.Valid()
    modifies out, out.buffer
    ensures out.Valid() && out.buffer == old(out.buffer)
    ensures var before := old(Work(out.Value(), hashed)); var o := ApplyDelta(bz, src, patch, offset, before);
      && r.Ok? == o.Ok? && r.Failed? == o.Failed? && r.Hangs? == o.Hangs?
      && (r.Ok? ==> o.value == Work(out.Value(), hashed'))
      && (!r.Ok? ==> hashed' == hashed)
      && (r.Failed? ==> out.Value() == AfterFailure(Decode(bz, src, patch, offset), before.sink))
  {
    hide Decode, Accept;
    hashed' := hashed;
    var d := ApplyBSDiffPatchMem(bz, src, patch, offset);
    match d {
      case Ok(data) =>
        var n := out.Write(data);
        if n < |data| {
          return Failed, hashed;
        }
        return Ok(()), hashed + data;
      case Failed => return Failed, hashed;
      case Hangs => return Hangs, hashed;
      case Undefined => return Undefined, hashed;
    }
  }

  /** Lines 104-207: expand, patch in memory, compress again. */
  method Recompressed(bz: Bzip, z: Zlib, src: seq<byte>, patch: seq<byte>, r: Record) returns (o: Result<seq<byte>>)
    requires r.DeflateRecord?
    ensures o == Output(bz, z, src, patch, r)
  {
    hide Decode;
    var s := Slice(src, r.start, r.len);
    if s.None? { return Undefined; }
    var x := z.inflate(s.value);
    if x.None? || |x.value.data| != r.expandedLen { return Failed; }
    var t := ApplyBSDiffPatchMem(bz, x.value.data, patch, r.offset);
    match t {
      case Ok(data) => return Ok(z.deflate(r.enc, data));
      case Failed => return Failed;
      case Hangs => return Hangs;
      case Undefined => return Undefined;
    }
  }

  /** Lines 69-228: one record. */
  method PlayRecord(bz: Bzip, z: Zlib, src: seq<byte>, patch: seq<byte>, r: Record, out: Outlet, hashed: seq<byte>)
    returns (o: Result<()>, hashed': seq<byte>)
    requires out.Valid()
    modifies out, out.buffer
    ensures out.Valid() && out.buffer == old(out.buffer)
    ensures var s := ApplyRecord(bz, z, src, patch, r, old(Work(out.Value(), hashed)));
      && o.Ok? == s.Ok? && o.Failed? == s.Failed? && o.Hangs? == s.Hangs?
          && (o.Ok? ==> s.value == Work(out.Value(), hashed'))
  {
    hide Decode, Accept, AcceptPieces;
    hashed' := hashed;
    match r {
      case NormalRecord(start, len, offset) =>
        var s := Slice(src, start, len);
        if s.None? { return Undefined, hashed; }
        o, hashed' := ApplyBSDiffPatch(bz, s.value, patch, offset, out, hashed);
        if o.Failed? { o := Ok(()); }
      case RawRecord(data) =>
        var ok := out.WritePieces(data, Piece(r));
        return if ok then Ok(()) else Failed, hashed + data;
      case DeflateRecord(_, _, _, _, _) =>
        var d := Recompressed(bz, z, src, patch, r);
        match d {
          case Ok(data) =>
            var ok := out.WritePieces(data, Piece(r));
            return if ok then Ok(()) else Failed, hashed + data;
          case Failed => return Failed, hashed;
          case Hangs => return Hangs, hashed;
          case Undefined => return Undefined, hashed;
        }
    }
  }

  /**
   ApplyImagePatch does to the sink and the digest what the patch means for them, in all four ways in which
   it can end.
   */
  method ApplyImagePatch(bz: Bzip, z: Zlib, src: seq<byte>, patch: seq<byte>, out: Outlet)
    returns (o: Result<()>, hashed: seq<byte>)
    requires out.Valid()
    modifies out, out.buffer
    ensures out.Valid() && out.buffer == old(out.buffer)
    ensures var s := ApplyImage(bz, z, src, patch, old(Work(out.Value(), [])));
      && o.Ok? == s.Ok? && o.Failed? == s.Failed? && o.Hangs? == s.Hangs?
          && (o.Ok? ==> s.value == Work(out.Value(), hashed))
  {
    hide ApplyRecord, Read, ParseRecord, Accept;
    hashed := [];
    if |patch| < 12 || patch[..8] != IMGDIFF2 {
      return Failed, hashed;
    }
    var numChunks := Read(patch[8..12]);
    var pos: nat := 12;
    var i := 0;
    ghost var w0 := Work(out.Value(), []);
    while i < numChunks
      invariant 0 <= i && (0 <= numChunks ==> i <= numChunks) && out.Valid() && out.buffer == old(out.buffer)
      invariant ApplyRecords(bz, z, src, patch, 12, numChunks, w0)
        == ApplyRecords(bz, z, src, patch, pos, numChunks - i, Work(out.Value(), hashed))
    {
      var p := ParseRecord(patch, pos);
      match p {
        case Ok(parsed) =>
          o, hashed := PlayRecord(bz, z, src, patch, parsed.record, out, hashed);
          if !o.Ok? { return; }
          pos := parsed.next;
        case Failed => return Failed, hashed;
        case Hangs => return Hangs, hashed;
        case Undefined => return Undefined, hashed;
      }
      i := i + 1;
    }
    return Ok(()), hashed;
  }
}
