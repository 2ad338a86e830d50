/**
 The IMGDIFF2 file that imgdiff.c lays out (lines 973-1046), and the proof that the applier reads it back.
 */
module ImgFormat {
  import opened Bytes
  import opened BsPatch
  import opened BsDiff
  import opened ImgPatch
  import opened ImgParts

  /** A target chunk as it goes into the patch file: the patch fields of ImageChunk after MakePatch. */
  datatype Entry =
    | NormalEntry(sourceStart: nat, sourceLen: nat, patch: seq<byte>)
    | DeflateEntry(sourceStart: nat, sourceLen: nat, sourceUncompressedLen: nat, targetLen: nat, enc: Encoder,
      patch: seq<byte>)
    | RawEntry(data: seq<byte>)

  /** Lines 978-991: the header bytes of one chunk. */
  function HeaderSize(e: Entry): (r: nat) {
    match e
    case NormalEntry(_, _, _) => 4 + 8 * 3
    case DeflateEntry(_, _, _, _, _, _) => 4 + 8 * 5 + 4 * 5
    case RawEntry(data) => 4 + 4 + |data|
  }

  function BodySize(e: Entry): (r: nat) {
    if e.RawEntry? then 0 else |e.patch|
  }

  function EncoderBytes(c: Encoder): (r: seq<byte>)
    ensures |r| == 20
  {
    Write(c.level, 4) + Write(c.method_, 4) + Write(c.windowBits, 4) + Write(c.memLevel, 4) + Write(c.strategy, 4)
  }

  /** Lines 1002-1037: one record; `offset` is where the chunk's patch will be. */
  function RecordBytes(e: Entry, offset: nat): (r: seq<byte>)
    ensures |r| == HeaderSize(e)
  {
    match e
    case NormalEntry(start, len, _) => Write(CHUNK_NORMAL, 4) + Write(start, 8) + Write(len, 8) + Write(offset, 8)
    case DeflateEntry(start, len, expanded, target, enc, _) =>
      Write(CHUNK_DEFLATE, 4) + Write(start, 8) + Write(len, 8) + Write(offset, 8) + Write(expanded, 8)
        + Write(target, 8) + EncoderBytes(enc)
    case RawEntry(data) => Write(CHUNK_RAW, 4) + Write(|data|, 4) + data
  }

  ghost function HeaderSizes(es: seq<Entry>): nat {
    if es == [] then 0 else HeaderSize(es[0]) + HeaderSizes(es[1..])
  }

  ghost function Records(es: seq<Entry>, offset: nat): (r: seq<byte>)
    ensures |r| == HeaderSizes(es)
  {
    if es == [] then [] else RecordBytes(es[0], offset) + Records(es[1..], offset + BodySize(es[0]))
  }

  ghost function Bodies(es: seq<Entry>): seq<byte> {
    if es == [] then [] else (if es[0].RawEntry? then [] else es[0].patch) + Bodies(es[1..])
  }

  /** The whole file: magic, chunk count, records, bsdiff patches. */
  ghost function ImageFile(es: seq<Entry>): seq<byte> {
    IMGDIFF2 + Write(|es|, 4) + Records(es, 12 + HeaderSizes(es)) + Bodies(es)
  }

  // ----- reading it back -----

  /** Numbers that Write4 and Write8 do not truncate. */
  ghost predicate Int4(x: int) { -0x8000_0000 <= x < 0x8000_0000 }

  lemma Read4(x: int)
    requires Int4(x)
    ensures Read(Write(x, 4)) == x
  {
    SpanFacts();
    ReadWrite(x, 4);
  }

  lemma Read8(x: int)
    requires 0 <= x <= OFF_MAX
    ensures Read(Write(x, 8)) == x
  {
    SpanFacts();
    ReadWrite(x, 8);
  }

  ghost predicate Int4Encoder(c: Encoder) {
    Int4(c.level) && Int4(c.method_) && Int4(c.windowBits) && Int4(c.memLevel) && Int4(c.strategy)
  }

  /** Every number in the record survives its field. */
  ghost predicate Writable(e: Entry) {
    match e
    case NormalEntry(start, len, _) => start <= OFF_MAX && len <= OFF_MAX
    case DeflateEntry(start, len, expanded, target, enc, _) =>
      start <= OFF_MAX && len <= OFF_MAX && expanded <= OFF_MAX && target <= OFF_MAX && Int4Encoder(enc)
    case RawEntry(data) => Int4(|data|)
  }

  /** Decoding the entry against `src` gives `out`. */
  ghost predicate Yields(bz: Bzip, z: Zlib, src: seq<byte>, e: Entry, out: seq<byte>) {
    match e
    case NormalEntry(start, len, patch) =>
      start + len <= |src| && DecodesTo(bz, src[start..start+len], patch, out)
    case DeflateEntry(start, len, expanded, target, enc, patch) =>
      && start + len <= |src|
      && z.inflate(src[start..start+len]).Some?
      && var x := z.inflate(src[start..start+len]).value.data;
        |x| == expanded && exists t: seq<byte> :: DecodesTo(bz, x, patch, t) && z.deflate(enc, t) == out
    case RawEntry(data) => out == data
  }

  /** `file` has `part` at `at`. */
  ghost predicate At(file: seq<byte>, at: nat, part: seq<byte>) {
    at + |part| <= |file| && file[at..at+|part|] == part
  }

  lemma AtSplit(file: seq<byte>, at: nat, a: seq<byte>, b: seq<byte>)
    requires At(file, at, a + b)
    ensures At(file, at, a) && At(file, at + |a|, b)
  {
    SubSlice(file, at, |a + b|, 0, |a|);
    SubSlice(file, at, |a + b|, |a|, |a| + |b|);
    assert (a + b)[..|a|] == a && (a + b)[|a|..] == b;
  }

  /** A patch that decodes anywhere decodes where it is. */
  lemma DecodeAt(bz: Bzip, s: seq<byte>, patch: seq<byte>, t: seq<byte>, file: seq<byte>, at: nat)
    requires DecodesTo(bz, s, patch, t) && At(file, at, patch)
    ensures Decode(bz, s, file, at) == Ok(t)
  {
    hide Decode;
    assert file == file[..at] + patch + file[at+|patch|..];
    assert Decode(bz, s, file[..at] + patch + file[at+|patch|..], |file[..at]|) == Ok(t);
  }

  lemma NormalFields(file: seq<byte>, pos: nat, start: nat, len: nat, offset: nat)
    requires start <= OFF_MAX && len <= OFF_MAX && offset <= OFF_MAX
    requires At(file, pos, Write(CHUNK_NORMAL, 4) + Write(start, 8) + Write(len, 8) + Write(offset, 8))
    ensures pos + 28 <= |file| && Read(file[pos..pos+4]) == CHUNK_NORMAL
    ensures Read(file[pos+4..pos+12]) == start && Read(file[pos+12..pos+20]) == len
    ensures Read(file[pos+20..pos+28]) == offset
  {
    hide Read, Write;
    AtSplit(file, pos, Write(CHUNK_NORMAL, 4) + Write(start, 8) + Write(len, 8), Write(offset, 8));
    AtSplit(file, pos, Write(CHUNK_NORMAL, 4) + Write(start, 8), Write(len, 8));
    AtSplit(file, pos, Write(CHUNK_NORMAL, 4), Write(start, 8));
    Read4(CHUNK_NORMAL);
    Read8(start);
    Read8(len);
    Read8(offset);
  }

  lemma RawFields(file: seq<byte>, pos: nat, data: seq<byte>)
    requires Int4(|data|)
    requires At(file, pos, Write(CHUNK_RAW, 4) + Write(|data|, 4) + data)
    ensures pos + 8 + |data| <= |file| && Read(file[pos..pos+4]) == CHUNK_RAW
    ensures Read(file[pos+4..pos+8]) == |data| && file[pos+8..pos+8+|data|] == data
  {
    hide Read, Write;
    AtSplit(file, pos, Write(CHUNK_RAW, 4) + Write(|data|, 4), data);
    AtSplit(file, pos, Write(CHUNK_RAW, 4), Write(|data|, 4));
    Read4(CHUNK_RAW);
    Read4(|data|);
  }

  lemma EncoderFields(file: seq<byte>, p: nat, c: Encoder)
    requires Int4Encoder(c) && At(file, p, EncoderBytes(c))
    ensures p + 20 <= |file|
    ensures Encoder(Read(file[p..p+4]), Read(file[p+4..p+8]), Read(file[p+8..p+12]), Read(file[p+12..p+16]),
        Read(file[p+16..p+20])) == c
  {
    hide Read, Write;
    AtSplit(file, p, Write(c.level, 4) + Write(c.method_, 4) + Write(c.windowBits, 4) + Write(c.memLevel, 4),
      Write(c.strategy, 4));
    AtSplit(file, p, Write(c.level, 4) + Write(c.method_, 4) + Write(c.windowBits, 4), Write(c.memLevel, 4));
    AtSplit(file, p, Write(c.level, 4) + Write(c.method_, 4), Write(c.windowBits, 4));
    AtSplit(file, p, Write(c.level, 4), Write(c.method_, 4));
    Read4(c.level);
    Read4(c.method_);
    Read4(c.windowBits);
    Read4(c.memLevel);
    Read4(c.strategy);
  }

  lemma DeflateFields(file: seq<byte>, pos: nat, start: nat, len: nat, offset: nat, expanded: nat, target: nat,
                      c: Encoder)
    requires start <= OFF_MAX && len <= OFF_MAX && offset <= OFF_MAX && expanded <= OFF_MAX && target <= OFF_MAX
    requires Int4Encoder(c)
    requires At(file, pos, Write(CHUNK_DEFLATE, 4) + Write(start, 8) + Write(len, 8) + Write(offset, 8)
        + Write(expanded, 8) + Write(target, 8) + EncoderBytes(c))
    ensures pos + 64 <= |file| && Read(file[pos..pos+4]) == CHUNK_DEFLATE
    ensures Read(file[pos+4..pos+12]) == start && Read(file[pos+12..pos+20]) == len
    ensures Read(file[pos+20..pos+28]) == offset && Read(file[pos+28..pos+36]) == expanded
    ensures At(file, pos + 44, EncoderBytes(c))
  {
    hide Read, Write;
    var a := Write(CHUNK_DEFLATE, 4) + Write(start, 8) + Write(len, 8) + Write(offset, 8);
    AtSplit(file, pos, a + Write(expanded, 8) + Write(target, 8), EncoderBytes(c));
    AtSplit(file, pos, a + Write(expanded, 8), Write(target, 8));
    AtSplit(file, pos, a, Write(expanded, 8));
    AtSplit(file, pos, Write(CHUNK_DEFLATE, 4) + Write(start, 8) + Write(len, 8), Write(offset, 8));
    AtSplit(file, pos, Write(CHUNK_DEFLATE, 4) + Write(start, 8), Write(len, 8));
    AtSplit(file, pos, Write(CHUNK_DEFLATE, 4), Write(start, 8));
    Read4(CHUNK_DEFLATE);
    Read8(start);
    Read8(len);
    Read8(offset);
    Read8(expanded);
  }

  /** What the applier reads from the record of an entry whose patch is at `offset`. */
  function RecordOf(e: Entry, offset: nat): (r: Record) {
    match e
    case NormalEntry(start, len, _) => NormalRecord(start, len, offset)
    case DeflateEntry(start, len, expanded, _, enc, _) => DeflateRecord(start, len, offset, expanded, enc)
    case RawEntry(data) => RawRecord(data)
  }

  lemma NormalParses(e: Entry, file: seq<byte>, pos: nat, offset: nat)
    requires e.NormalEntry? && Writable(e) && offset <= OFF_MAX && At(file, pos, RecordBytes(e, offset))
    ensures ParseRecord(file, pos) == Ok(Parsed(RecordOf(e, offset), pos + HeaderSize(e)))
  {
    hide Read, Write;
    NormalFields(file, pos, e.sourceStart, e.sourceLen, offset);
  }

  lemma RawParses(e: Entry, file: seq<byte>, pos: nat, offset: nat)
    requires e.RawEntry? && Writable(e) && At(file, pos, RecordBytes(e, offset))
    ensures ParseRecord(file, pos) == Ok(Parsed(RecordOf(e, offset), pos + HeaderSize(e)))
  {
    hide Read, Write;
    RawFields(file, pos, e.data);
  }

  lemma DeflateParses(e: Entry, file: seq<byte>, pos: nat, offset: nat)
    requires e.DeflateEntry? && Writable(e) && offset <= OFF_MAX && At(file, pos, RecordBytes(e, offset))
    ensures ParseRecord(file, pos) == Ok(Parsed(RecordOf(e, offset), pos + HeaderSize(e)))
  {
    hide Read, Write;
    DeflateFields(file, pos, e.sourceStart, e.sourceLen, offset, e.sourceUncompressedLen, e.targetLen, e.enc);
    EncoderFields(file, pos + 44, e.enc);
  }

  /** Every record is read back field by field, and leads to the next one. */
  lemma RecordParses(e: Entry, file: seq<byte>, pos: nat, offset: nat)
    requires Writable(e) && offset <= OFF_MAX && At(file, pos, RecordBytes(e, offset))
    ensures ParseRecord(file, pos) == Ok(Parsed(RecordOf(e, offset), pos + HeaderSize(e)))
  {
    hide ParseRecord, Writable, At, RecordBytes;
    match e
    case NormalEntry(_, _, _) => NormalParses(e, file, pos, offset);
    case RawEntry(_) => RawParses(e, file, pos, offset);
    case DeflateEntry(_, _, _, _, _, _) => DeflateParses(e, file, pos, offset);
  }

  /** The bytes of a record; the target length of a CHUNK_DEFLATE record is not looked at. */
  function RecordImage(r: Record, targetLen: int): (s: seq<byte>) {
    match r
    case NormalRecord(start, len, offset) => Write(CHUNK_NORMAL, 4) + Write(start, 8) + Write(len, 8) + Write(offset, 8)
    case RawRecord(data) => Write(CHUNK_RAW, 4) + Write(|data|, 4) + data
    case DeflateRecord(start, len, offset, expanded, enc) =>
      Write(CHUNK_DEFLATE, 4) + Write(start, 8) + Write(len, 8) + Write(offset, 8) + Write(expanded, 8)
        + Write(targetLen, 8) + EncoderBytes(enc)
  }

  lemma Cut<T>(s: seq<T>, a: nat, b: nat, c: nat)
    requires a <= b <= c <= |s|
    ensures s[a..b] + s[b..c] == s[a..c]
  {
  }

  lemma NormalImage(patch: seq<byte>, pos: nat)
    requires ParseRecord(patch, pos).Ok? && ParseRecord(patch, pos).value.record.NormalRecord?
    ensures var p := ParseRecord(patch, pos).value; pos <= p.next && patch[pos..p.next] == RecordImage(p.record, 0)
  {
    hide Read, Write;
    WriteRead(patch[pos..pos+4]);
    WriteRead(patch[pos+4..pos+12]);
    WriteRead(patch[pos+12..pos+20]);
    WriteRead(patch[pos+20..pos+28]);
    Cut(patch, pos, pos + 4, pos + 12);
    Cut(patch, pos, pos + 12, pos + 20);
    Cut(patch, pos, pos + 20, pos + 28);
  }

  lemma RawImage(patch: seq<byte>, pos: nat)
    requires ParseRecord(patch, pos).Ok? && ParseRecord(patch, pos).value.record.RawRecord?
    ensures var p := ParseRecord(patch, pos).value; pos <= p.next && patch[pos..p.next] == RecordImage(p.record, 0)
  {
    hide Read, Write;
    var p := ParseRecord(patch, pos).value;
    WriteRead(patch[pos..pos+4]);
    WriteRead(patch[pos+4..pos+8]);
    Cut(patch, pos, pos + 4, pos + 8);
    Cut(patch, pos, pos + 8, p.next);
  }

  lemma EncoderImage(patch: seq<byte>, at: nat)
    requires at + 20 <= |patch|
    ensures EncoderBytes(Encoder(Read(patch[at..at+4]), Read(patch[at+4..at+8]), Read(patch[at+8..at+12]),
      Read(patch[at+12..at+16]), Read(patch[at+16..at+20]))) == patch[at..at+20]
  {
    hide Read, Write;
    WriteRead(patch[at..at+4]);
    WriteRead(patch[at+4..at+8]);
    WriteRead(patch[at+8..at+12]);
    WriteRead(patch[at+12..at+16]);
    WriteRead(patch[at+16..at+20]);
    Cut(patch, at, at + 4, at + 8);
    Cut(patch, at, at + 8, at + 12);
    Cut(patch, at, at + 12, at + 16);
    Cut(patch, at, at + 16, at + 20);
  }

  lemma DeflateImage(patch: seq<byte>, pos: nat)
    requires ParseRecord(patch, pos).Ok? && ParseRecord(patch, pos).value.record.DeflateRecord?
    ensures var p := ParseRecord(patch, pos).value;
      pos + 44 <= p.next && patch[pos..p.next] == RecordImage(p.record, Read(patch[pos+36..pos+44]))
  {
    hide Read, Write, EncoderBytes;
    WriteRead(patch[pos..pos+4]);
    WriteRead(patch[pos+4..pos+12]);
    WriteRead(patch[pos+12..pos+20]);
    WriteRead(patch[pos+20..pos+28]);
    WriteRead(patch[pos+28..pos+36]);
    WriteRead(patch[pos+36..pos+44]);
    EncoderImage(patch, pos + 44);
    Cut(patch, pos, pos + 4, pos + 12);
    Cut(patch, pos, pos + 12, pos + 20);
    Cut(patch, pos, pos + 20, pos + 28);
    Cut(patch, pos, pos + 28, pos + 36);
    Cut(patch, pos, pos + 36, pos + 44);
    Cut(patch, pos, pos + 44, pos + 64);
  }

  /** Whatever is read as a record is one: nothing else is accepted, and no field is read from elsewhere. */
  lemma ParsedIsRecord(patch: seq<byte>, pos: nat)
    requires ParseRecord(patch, pos).Ok?
    ensures var p := ParseRecord(patch, pos).value;
      pos <= p.next && exists targetLen :: patch[pos..p.next] == RecordImage(p.record, targetLen)
  {
    hide ParseRecord, RecordImage;
    match ParseRecord(patch, pos).value.record
    case NormalRecord(_, _, _) => NormalImage(patch, pos);
    case RawRecord(_) => RawImage(patch, pos);
    case DeflateRecord(_, _, _, _, _) => DeflateImage(patch, pos);
  }

  /** A record whose patch is where the record says yields its chunk. */
  lemma RecordYields(bz: Bzip, z: Zlib, src: seq<byte>, e: Entry, out: seq<byte>, file: seq<byte>, offset: nat)
    requires Yields(bz, z, src, e, out) && (!e.RawEntry? ==> At(file, offset, e.patch))
    ensures Output(bz, z, src, file, RecordOf(e, offset)) == Ok(out)
  {
    hide Decode, DecodesTo, At;
    match e
    case NormalEntry(start, len, patch) =>
      DecodeAt(bz, src[start..start+len], patch, out, file, offset);
    case RawEntry(_) =>
    case DeflateEntry(start, len, expanded, target, enc, patch) =>
      var x := z.inflate(src[start..start+len]).value.data;
      var t: seq<byte> :| DecodesTo(bz, x, patch, t) && z.deflate(enc, t) == out;
      DecodeAt(bz, x, patch, t, file, offset);
  }

  lemma BodyLength(e: Entry)
    ensures BodySize(e) == if e.RawEntry? then 0 else |e.patch|
  {
  }

  /** The parts that the entries stand for. */
  function PartFor(e: Entry, out: seq<byte>): (p: Part)
    ensures p.Must? ==> p.piece > 0
  {
    if e.NormalEntry? then May(out) else Must(out, Piece(RecordOf(e, 0)))
  }

  function PartsFor(es: seq<Entry>, outs: seq<seq<byte>>): (ps: seq<Part>)
    requires |es| == |outs|
    ensures Pieced(ps) && Lost !in ps && |ps| == |es|
  {
    if es == [] then [] else [PartFor(es[0], outs[0])] + PartsFor(es[1..], outs[1..])
  }

  ghost function Joined(outs: seq<seq<byte>>): seq<byte> {
    if outs == [] then [] else outs[0] + Joined(outs[1..])
  }

  lemma {:induction false} PartsForConcat(es: seq<Entry>, outs: seq<seq<byte>>)
    requires |es| == |outs|
    ensures Concat(PartsFor(es, outs)) == Joined(outs)
    decreases |es|
  {
    hide PartFor;
    if es != [] {
      PartsForConcat(es[1..], outs[1..]);
      var ps := PartsFor(es, outs);
      assert ps[1..] == PartsFor(es[1..], outs[1..]);
      assert Data(ps[0]) == outs[0] by { PartForData(es[0], outs[0]); }
    }
  }

  lemma PartForData(e: Entry, out: seq<byte>)
    ensures Data(PartFor(e, out)) == out
  {
  }

  lemma PartOfRecord(bz: Bzip, z: Zlib, src: seq<byte>, e: Entry, out: seq<byte>, file: seq<byte>, offset: nat)
    requires Output(bz, z, src, file, RecordOf(e, offset)) == Ok(out)
    ensures PartOf(bz, z, src, file, RecordOf(e, offset)) == Some(PartFor(e, out))
  {
    hide Output;
  }

  /** The first of several entries: its record and its patch are in place, and so are the others'. */
  lemma FirstEntry(es: seq<Entry>, file: seq<byte>, pos: nat, offset: nat)
    requires es != [] && At(file, pos, Records(es, offset)) && At(file, offset, Bodies(es))
    ensures At(file, pos, RecordBytes(es[0], offset)) && (!es[0].RawEntry? ==> At(file, offset, es[0].patch))
    ensures At(file, pos + HeaderSize(es[0]), Records(es[1..], offset + BodySize(es[0])))
    ensures At(file, offset + BodySize(es[0]), Bodies(es[1..])) && offset <= |file|
  {
    hide RecordBytes, At, HeaderSize, BodySize;
    var e, rest := es[0], es[1..];
    var body := if e.RawEntry? then [] else e.patch;
    AtWithin(file, offset, Bodies(es));
    AtSplit(file, pos, RecordBytes(e, offset), Records(rest, offset + BodySize(e)));
    AtSplit(file, offset, body, Bodies(rest));
    BodyLength(e);
  }

  lemma PartsCons(bz: Bzip, z: Zlib, src: seq<byte>, file: seq<byte>, pos: nat, count: nat, r: Record, next: nat,
                  part: Part, rest: seq<Part>)
    requires ParseRecord(file, pos) == Ok(Parsed(r, next)) && PartOf(bz, z, src, file, r) == Some(part)
    requires PartsFrom(bz, z, src, file, next, count) == Some(rest)
    ensures PartsFrom(bz, z, src, file, pos, count + 1) == Some([part] + rest)
  {
    hide ParseRecord, PartOf;
  }

  /** The records from `pos` on, with their patches from `offset` on, are the entries' parts. */
  lemma {:induction false} RecordsParts(bz: Bzip, z: Zlib, src: seq<byte>, es: seq<Entry>, outs: seq<seq<byte>>,
                                        file: seq<byte>,
                                        pos: nat, offset: nat)
    requires |es| == |outs| && forall i :: 0 <= i < |es| ==> Writable(es[i]) && Yields(bz, z, src, es[i], outs[i])
    requires At(file, pos, Records(es, offset)) && At(file, offset, Bodies(es)) && |file| <= OFF_MAX
    ensures PartsFrom(bz, z, src, file, pos, |es|) == Some(PartsFor(es, outs))
    decreases |es|
  {
    hide RecordBytes, Yields, Writable, ParseRecord, At, HeaderSize, BodySize, PartOf, PartFor, RecordOf, Records;
    hide Bodies, PartsFrom;
    if es == [] {
      NoParts(bz, z, src, file, pos);
    } else {
      var e, rest := es[0], es[1..];
      FirstEntry(es, file, pos, offset);
      RecordParses(e, file, pos, offset);
      RecordYields(bz, z, src, e, outs[0], file, offset);
      PartOfRecord(bz, z, src, e, outs[0], file, offset);
      RecordsParts(bz, z, src, rest, outs[1..], file, pos + HeaderSize(e), offset + BodySize(e));
      PartsCons(bz, z, src, file, pos, |rest|, RecordOf(e, offset), pos + HeaderSize(e), PartFor(e, outs[0]),
        PartsFor(rest, outs[1..]));
    }
  }

  lemma NoParts(bz: Bzip, z: Zlib, src: seq<byte>, file: seq<byte>, pos: nat)
    ensures PartsFrom(bz, z, src, file, pos, 0) == Some([])
  {
  }

  lemma AtWithin(file: seq<byte>, at: nat, part: seq<byte>)
    requires At(file, at, part)
    ensures at <= |file|
  {
  }

  /**
   Header size, recorded offsets and field widths fit together: the file that imgdiff lays out has exactly
   the parts of its entries, so its full output is the concatenation of what they yield.
   */
  lemma ImageFileParts(bz: Bzip, z: Zlib, src: seq<byte>, es: seq<Entry>, outs: seq<seq<byte>>)
    requires |es| == |outs| && forall i :: 0 <= i < |es| ==> Writable(es[i]) && Yields(bz, z, src, es[i], outs[i])
    requires Int4(|es|) && |ImageFile(es)| <= OFF_MAX
    ensures Parts(bz, z, src, ImageFile(es)) == Some(PartsFor(es, outs))
    ensures Image(PartsFor(es, outs)) == Some(Joined(outs))
  {
    hide Yields, Writable, Read, Write, Records, Bodies, PartsFrom, PartsFor, Concat;
    var file := ImageFile(es);
    var offset := 12 + HeaderSizes(es);
    assert file[0..|file|] == file;
    assert At(file, 0, IMGDIFF2 + Write(|es|, 4) + Records(es, offset) + Bodies(es));
    AtSplit(file, 0, IMGDIFF2 + Write(|es|, 4) + Records(es, offset), Bodies(es));
    AtSplit(file, 0, IMGDIFF2 + Write(|es|, 4), Records(es, offset));
    AtSplit(file, 0, IMGDIFF2, Write(|es|, 4));
    Read4(|es|);
    RecordsParts(bz, z, src, es, outs, file, 12, offset);
    PartsForConcat(es, outs);
    assert file[..8] == IMGDIFF2 && file[8..12] == Write(|es|, 4);
  }
}
