/**
 imgdiff.c in image mode, without bonus data: from two images to an IMGDIFF2 patch.
 */
module ImgDiff {
  import opened Bytes
  import opened BsPatch
  import opened BsDiff
  import opened ImgPatch
  import opened ImgParts
  import opened ImgFormat
  import opened ImgChunks

  // ----- deciding which deflate chunks to keep (lines 879-920) -----

  const Z_DEFLATED := 8
  const Z_DEFAULT_STRATEGY := 0

  function TriedEncoder(level: int): (r: Encoder) {
    Encoder(level, Z_DEFLATED, -15, 8, Z_DEFAULT_STRATEGY)
  }

  /** Some compressor settings that imgdiff tries make `bytes` of `data`: level 6 or 9, raw, with default memory. */
  ghost predicate Reproducible(z: Zlib, bytes: seq<byte>, data: seq<byte>) {
    z.deflate(Encoder(6, 8, -15, 8, 0), data) == bytes || z.deflate(Encoder(9, 8, -15, 8, 0), data) == bytes
  }

  /** ReconstructDeflateChunk: the first of levels 6 and 9 that reproduces the compressed bytes. */
  method ReconstructDeflateChunk(z: Zlib, img: seq<byte>, c: Chunk) returns (r: Option<Encoder>)
    requires c.Deflate? && c.at + c.deflateLen <= |img|
    ensures r.Some? ==> z.deflate(r.value, c.data) == img[c.at..c.at+c.deflateLen] && Int4Encoder(r.value)
    ensures r.Some? <==> Reproducible(z, img[c.at..c.at+c.deflateLen], c.data)
  {
    var level := 6;
    while level <= 9
      invariant level == 6 || level == 9 || level == 12
      invariant level > 6 ==> z.deflate(TriedEncoder(6), c.data) != img[c.at..c.at+c.deflateLen]
      invariant level > 9 ==> z.deflate(TriedEncoder(9), c.data) != img[c.at..c.at+c.deflateLen]
    {
      if z.deflate(TriedEncoder(level), c.data) == img[c.at..c.at+c.deflateLen] {
        return Some(TriedEncoder(level));
      }
      level := level + 3;
    }
    return None;
  }

  function ChangeDeflateChunkToNormal(c: Chunk): (r: Chunk)
    ensures r.Normal? && r.start == c.start && Extent(r) == Extent(c)
  {
    if c.Deflate? then Normal(c.start, c.deflateLen, c.at) else c
  }

  /** AreChunksEqual for two deflate chunks. */
  predicate SameDeflate(a: Chunk, aImg: seq<byte>, b: Chunk, bImg: seq<byte>)
    requires a.Deflate? && b.Deflate? && a.at + a.deflateLen <= |aImg| && b.at + b.deflateLen <= |bImg|
  {
    a.deflateLen == b.deflateLen && aImg[a.at..a.at+a.deflateLen] == bImg[b.at..b.at+b.deflateLen]
  }

  /** The deflate chunks among the first `n` can be recompressed to their own bytes. */
  ghost predicate Settled(z: Zlib, img: seq<byte>, cs: seq<Chunk>, n: int) {
    forall i :: 0 <= i < n && i < |cs| && cs[i].Deflate? ==> Recompresses(z, img, cs[i])
  }

  ghost predicate Recompresses(z: Zlib, img: seq<byte>, c: Chunk) {
    c.Deflate? && c.start + c.deflateLen <= |img| && Int4Encoder(c.enc) && z.deflate(c.enc, c.data)
      == img[c.start..c.start+c.deflateLen]
  }

  /** Both lists tile their images and have the same types in the same order. */
  ghost predicate Parallel(z: Zlib, src: seq<byte>, sc: seq<Chunk>, tgt: seq<byte>, tc: seq<Chunk>) {
    Tiled(z, src, sc, 0, |src|) && Tiled(z, tgt, tc, 0, |tgt|) && Kinds(sc) == Kinds(tc)
  }

  lemma ParallelAt(z: Zlib, src: seq<byte>, sc: seq<Chunk>, tgt: seq<byte>, tc: seq<Chunk>, i: nat)
    requires Parallel(z, src, sc, tgt, tc) && i < |tc|
    ensures |sc| == |tc| && WellFormed(z, src, sc[i]) && WellFormed(z, tgt, tc[i]) && sc[i].Normal? == tc[i].Normal?
  {
    assert |Kinds(sc)| == |Kinds(tc)| && Kinds(sc)[i] == Kinds(tc)[i];
    TiledEach(z, src, sc, 0, |src|, i);
    TiledEach(z, tgt, tc, 0, |tgt|, i);
  }

  /** Turning the same deflate chunk of both lists into a normal one keeps them parallel. */
  lemma ParallelChange(z: Zlib, src: seq<byte>, sc: seq<Chunk>, tgt: seq<byte>, tc: seq<Chunk>, i: nat)
    requires Parallel(z, src, sc, tgt, tc) && i < |tc| && i < |sc|
    ensures Parallel(z, src, sc[i := ChangeDeflateChunkToNormal(sc[i])], tgt,
        tc[i := ChangeDeflateChunkToNormal(tc[i])])
  {
    ParallelAt(z, src, sc, tgt, tc, i);
    TiledUpdate(z, src, sc, 0, |src|, i, ChangeDeflateChunkToNormal(sc[i]));
    TiledUpdate(z, tgt, tc, 0, |tgt|, i, ChangeDeflateChunkToNormal(tc[i]));
    var a, b := Kinds(sc[i := ChangeDeflateChunkToNormal(sc[i])]), Kinds(tc[i := ChangeDeflateChunkToNormal(tc[i])]);
    assert forall k :: 0 <= k < |a| ==> Kinds(sc)[k] == Kinds(tc)[k] && a[k] == b[k];
  }

  lemma ParallelEncoder(z: Zlib, src: seq<byte>, sc: seq<Chunk>, tgt: seq<byte>, tc: seq<Chunk>, i: nat, enc: Encoder)
    requires Parallel(z, src, sc, tgt, tc) && i < |tc| && tc[i].Deflate?
    ensures Parallel(z, src, sc, tgt, tc[i := tc[i].(enc := enc)])
  {
    ParallelAt(z, src, sc, tgt, tc, i);
    TiledUpdate(z, tgt, tc, 0, |tgt|, i, tc[i].(enc := enc));
    var b := Kinds(tc[i := tc[i].(enc := enc)]);
    assert forall k :: 0 <= k < |b| ==> Kinds(tc)[k] == b[k];
  }

  /** A deflate chunk that is worth patching expanded: its bytes can be made again, and the source has others. */
  ghost predicate Worth(z: Zlib, src: seq<byte>, s: Chunk, tgt: seq<byte>, t: Chunk) {
    && t.Deflate? && s.Deflate? && t.at + t.deflateLen <= |tgt| && s.at + s.deflateLen <= |src|
    && Reproducible(z, tgt[t.at..t.at+t.deflateLen], t.data)
    && tgt[t.at..t.at+t.deflateLen] != src[s.at..s.at+s.deflateLen]
  }

  /** Which of the first `n` chunks are deflate chunks, given what they were. */
  ghost predicate Chosen(z: Zlib, src: seq<byte>, ss: seq<Chunk>, tgt: seq<byte>, tt: seq<Chunk>, tc: seq<Chunk>,
                         n: int) {
    |ss| == |tt| == |tc| &&
    forall i :: 0 <= i < n && i < |tc| ==> (tc[i].Deflate? <==> Worth(z, src, ss[i], tgt, tt[i]))
  }

  lemma WorthExactly(z: Zlib, src: seq<byte>, s: Chunk, tgt: seq<byte>, t: Chunk)
    requires t.Deflate? && s.Deflate? && t.at + t.deflateLen <= |tgt| && s.at + s.deflateLen <= |src|
    ensures Worth(z, src, s, tgt, t) <==>
      Reproducible(z, tgt[t.at..t.at+t.deflateLen], t.data) && !SameDeflate(t, tgt, s, src)
  {
  }

  lemma NormalNotWorth(z: Zlib, src: seq<byte>, s: Chunk, tgt: seq<byte>, t: Chunk)
    requires t.Normal?
    ensures !Worth(z, src, s, tgt, t)
  {
  }

  lemma ChosenStep(z: Zlib, src: seq<byte>, ss: seq<Chunk>, tgt: seq<byte>, tt: seq<Chunk>, tc: seq<Chunk>, i: nat,
                   c: Chunk)
    requires Chosen(z, src, ss, tgt, tt, tc, i) && i < |tc| && (c.Deflate? <==> Worth(z, src, ss[i], tgt, tt[i]))
    ensures Chosen(z, src, ss, tgt, tt, tc[i := c], i + 1)
  {
    hide Worth;
  }

  lemma ChosenNone(z: Zlib, src: seq<byte>, ss: seq<Chunk>, tgt: seq<byte>, tt: seq<Chunk>, tc: seq<Chunk>)
    requires |ss| == |tt| == |tc|
    ensures Chosen(z, src, ss, tgt, tt, tc, 0)
  {
  }

  /** Lines 880-919 for a deflate chunk. */
  method SettleOne(z: Zlib, src: seq<byte>, sc: array<Chunk>, tgt: seq<byte>, tc: array<Chunk>, n: nat, i: nat)
    requires sc != tc && n <= sc.Length && n <= tc.Length && Parallel(z, src, sc[..n], tgt, tc[..n])
    requires i < n && tc[i].Deflate?
    modifies sc, tc
    ensures Parallel(z, src, sc[..n], tgt, tc[..n])
    ensures sc[..n] == old(sc[..n])[i := sc[i]] && tc[..n] == old(tc[..n])[i := tc[i]]
    ensures tc[i].Deflate? ==> Recompresses(z, tgt, tc[i])
    ensures tc[i].Deflate? <==> Worth(z, src, old(sc[i]), tgt, old(tc[i]))
  {
    hide Parallel, Recompresses, Worth, Reproducible, SameDeflate;
    ghost var ss, tt := sc[..n], tc[..n];
    assert ss[i] == sc[i] && tt[i] == tc[i];
    ParallelAt(z, src, ss, tgt, tt, i);
    WorthExactly(z, src, sc[i], tgt, tc[i]);
    var enc := ReconstructDeflateChunk(z, tgt, tc[i]);
    if enc.None? || SameDeflate(tc[i], tgt, sc[i], src) {
      ParallelChange(z, src, ss, tgt, tt, i);
      tc[i] := ChangeDeflateChunkToNormal(tc[i]);
      sc[i] := ChangeDeflateChunkToNormal(sc[i]);
      assert sc[..n] == ss[i := sc[i]] && tc[..n] == tt[i := tc[i]];
    } else {
      ParallelEncoder(z, src, ss, tgt, tt, i, enc.value);
      tc[i] := tc[i].(enc := enc.value);
      assert sc[..n] == ss[i := sc[i]] && tc[..n] == tt[i := tc[i]];
      RecompressesNow(z, tgt, tc[i]);
    }
  }

  lemma SettledStep(z: Zlib, img: seq<byte>, cs: seq<Chunk>, i: nat, c: Chunk)
    requires Settled(z, img, cs, i) && i < |cs| && (c.Deflate? ==> Recompresses(z, img, c))
    ensures Settled(z, img, cs[i := c], i + 1)
  {
    hide Recompresses;
  }

  /** Lines 879-920: the deflate chunks that are left are exactly those worth patching expanded. */
  method Settle(z: Zlib, src: seq<byte>, sc: array<Chunk>, tgt: seq<byte>, tc: array<Chunk>, n: nat)
    requires sc != tc && n <= sc.Length && n <= tc.Length && Parallel(z, src, sc[..n], tgt, tc[..n])
    modifies sc, tc
    ensures Parallel(z, src, sc[..n], tgt, tc[..n]) && Settled(z, tgt, tc[..n], n)
    ensures Chosen(z, src, old(sc[..n]), tgt, old(tc[..n]), tc[..n], n)
  {
    hide Parallel, Recompresses, Worth, Chosen, Settled;
    ghost var ss, tt := sc[..n], tc[..n];
    ChosenNone(z, src, ss, tgt, tt, tt);
    SettledNone(z, tgt, tt);
    for i := 0 to n
      invariant Parallel(z, src, sc[..n], tgt, tc[..n]) && Settled(z, tgt, tc[..n], i)
      invariant Chosen(z, src, ss, tgt, tt, tc[..n], i)
      invariant forall k :: i <= k < n ==> sc[k] == ss[k] && tc[k] == tt[k]
    {
      ghost var was := tc[..n];
      if tc[i].Deflate? {
        SettleOne(z, src, sc, tgt, tc, n, i);
      } else {
        NormalNotWorth(z, src, sc[i], tgt, tc[i]);
        assert was[i := tc[i]] == was;
      }
      ChosenStep(z, src, ss, tgt, tt, was, i, tc[i]);
      SettledStep(z, tgt, was, i, tc[i]);
      assert forall k :: i < k < n ==> sc[k] == sc[..n][k] && tc[k] == tc[..n][k];
    }
  }

  lemma SettledNone(z: Zlib, img: seq<byte>, cs: seq<Chunk>)
    ensures Settled(z, img, cs, 0)
  {
  }

  lemma RecompressesNow(z: Zlib, img: seq<byte>, c: Chunk)
    requires c.Deflate? && WellFormed(z, img, c.(enc := NO_ENCODER)) && Int4Encoder(c.enc)
    requires z.deflate(c.enc, c.data) == img[c.at..c.at+c.deflateLen]
    ensures Recompresses(z, img, c)
  {
  }

  // ----- patches for the chunks (lines 941-971) -----

  /** The bytes that bsdiff sees: a chunk's data pointer and length. */
  function Payload(img: seq<byte>, c: Chunk): (r: seq<byte>)
    requires c.Normal? ==> c.at + c.len <= |img|
  {
    if c.Normal? then img[c.at..c.at+c.len] else c.data
  }

  /** Everything a target chunk and its source chunk must satisfy to be patched. */
  ghost predicate Patchable(z: Zlib, src: seq<byte>, s: Chunk, tgt: seq<byte>, t: Chunk) {
    && z.WellBehaved() && WellFormed(z, src, s) && WellFormed(z, tgt, t) && s.Normal? == t.Normal?
    && (t.Deflate? ==> Recompresses(z, tgt, t)) && |src| < 0x8000_0000 && |tgt| < 0x8000_0000
  }

  /** The entry is sound for the chunk, unless its patch exceeds what a file can hold. */
  ghost predicate Sound(bz: Bzip, z: Zlib, src: seq<byte>, tgt: seq<byte>, t: Chunk, e: Entry) {
    && t.start + Extent(t) <= |tgt|
    && (BodySize(e) <= OFF_MAX ==> Writable(e) && Yields(bz, z, src, e, Covered(tgt, t)))
  }

  lemma NormalSound(bz: Bzip, z: Zlib, src: seq<byte>, s: Chunk, tgt: seq<byte>, t: Chunk, patch: seq<byte>)
    requires Patchable(z, src, s, tgt, t) && t.Normal?
    requires |patch| <= OFF_MAX ==> DecodesTo(bz, Payload(src, s), patch, Payload(tgt, t))
    ensures Sound(bz, z, src, tgt, t, NormalEntry(s.start, s.len, patch))
    ensures Sound(bz, z, src, tgt, t, RawEntry(Payload(tgt, t)))
  {
    hide DecodesTo;
  }

  lemma DeflateSound(bz: Bzip, z: Zlib, src: seq<byte>, s: Chunk, tgt: seq<byte>, t: Chunk, patch: seq<byte>)
    requires Patchable(z, src, s, tgt, t) && t.Deflate?
    requires |patch| <= OFF_MAX ==> DecodesTo(bz, s.data, patch, t.data)
    ensures |s.data| <= OFF_MAX && |t.data| <= OFF_MAX
    ensures Sound(bz, z, src, tgt, t, DeflateEntry(s.start, s.deflateLen, |s.data|, |t.data|, t.enc, patch))
  {
    hide DecodesTo;
  }

  lemma PayloadFits(z: Zlib, src: seq<byte>, s: Chunk, tgt: seq<byte>, t: Chunk)
    requires Patchable(z, src, s, tgt, t)
    ensures |Payload(src, s)| <= OFF_MAX && |Payload(tgt, t)| <= OFF_MAX
    ensures t.Normal? ==> Payload(tgt, t) == Covered(tgt, t)
  {
  }

  /** MakePatch: a short or badly compressing normal chunk goes in raw, the others as bsdiff patches. */
  method MakePatch(bz: Bzip, z: Zlib, src: seq<byte>, s: Chunk, tgt: seq<byte>, t: Chunk)
    returns (e: Entry, delta: seq<byte>)
    requires bz.Lossless() && Patchable(z, src, s, tgt, t)
    ensures Sound(bz, z, src, tgt, t, e)
    ensures t.Deflate? || t.len > 160 ==> |delta| <= OFF_MAX ==> DecodesTo(bz, Payload(src, s), delta, Payload(tgt, t))
    ensures e.RawEntry? <==> t.Normal? && (t.len <= 160 || t.len <= |delta|)
    ensures if e.RawEntry? then e.data == Covered(tgt, t) else e.patch == delta
    ensures e.DeflateEntry? <==> t.Deflate?
  {
    hide DecodesTo, Sound, Recompresses;
    PayloadFits(z, src, s, tgt, t);
    if t.Normal? && t.len <= 160 {
      RawSound(bz, z, src, s, tgt, t);
      return RawEntry(Payload(tgt, t)), [];
    }
    var patch, _ := Bsdiff(bz, Payload(src, s), None, Payload(tgt, t));
    if t.Normal? {
      NormalSound(bz, z, src, s, tgt, t, patch);
      if t.len <= |patch| {
        return RawEntry(Payload(tgt, t)), patch;
      }
      return NormalEntry(s.start, s.len, patch), patch;
    }
    DeflateSound(bz, z, src, s, tgt, t, patch);
    return DeflateEntry(s.start, s.deflateLen, |s.data|, |t.data|, t.enc, patch), patch;
  }

  lemma RawSound(bz: Bzip, z: Zlib, src: seq<byte>, s: Chunk, tgt: seq<byte>, t: Chunk)
    requires Patchable(z, src, s, tgt, t) && t.Normal?
    ensures Sound(bz, z, src, tgt, t, RawEntry(Payload(tgt, t)))
  {
  }

  /** The entries stand for the first chunks of the target, in order. */
  ghost predicate Entries(bz: Bzip, z: Zlib, src: seq<byte>, tgt: seq<byte>, tc: seq<Chunk>, es: seq<Entry>) {
    |es| <= |tc| && forall i :: 0 <= i < |es| ==> Sound(bz, z, src, tgt, tc[i], es[i])
  }

  method MakePatches(bz: Bzip, z: Zlib, src: seq<byte>, sc: seq<Chunk>, tgt: seq<byte>, tc: seq<Chunk>)
    returns (es: seq<Entry>)
    requires bz.Lossless() && z.WellBehaved() && |src| < 0x8000_0000 && |tgt| < 0x8000_0000
    requires Parallel(z, src, sc, tgt, tc) && Settled(z, tgt, tc, |tc|)
    ensures |es| == |tc| && Entries(bz, z, src, tgt, tc, es)
  {
    hide Parallel, Sound, Patchable, Settled, Bzip.Lossless, Zlib.WellBehaved;
    es := [];
    for i := 0 to |tc|
      invariant |es| == i && Entries(bz, z, src, tgt, tc, es)
    {
      PatchableAt(z, src, sc, tgt, tc, i);
      var e, _ := MakePatch(bz, z, src, sc[i], tgt, tc[i]);
      es := es + [e];
    }
  }

  lemma PatchableAt(z: Zlib, src: seq<byte>, sc: seq<Chunk>, tgt: seq<byte>, tc: seq<Chunk>, i: nat)
    requires z.WellBehaved() && |src| < 0x8000_0000 && |tgt| < 0x8000_0000
    requires Parallel(z, src, sc, tgt, tc) && Settled(z, tgt, tc, |tc|) && i < |tc|
    ensures |sc| == |tc| && Patchable(z, src, sc[i], tgt, tc[i])
  {
    ParallelAt(z, src, sc, tgt, tc, i);
  }

  // ----- laying out the file (lines 973-1046) -----

  lemma {:induction false} HeaderSizesAppend(a: seq<Entry>, e: Entry)
    ensures HeaderSizes(a + [e]) == HeaderSizes(a) + HeaderSize(e)
    decreases |a|
  {
    if a == [] {
      assert a + [e] == [e] && [e][1..] == [];
    } else {
      HeaderSizesAppend(a[1..], e);
      assert (a + [e])[1..] == a[1..] + [e];
    }
  }

  ghost function BodySizes(es: seq<Entry>): nat {
    if es == [] then 0 else BodySize(es[0]) + BodySizes(es[1..])
  }

  lemma {:induction false} BodySizesAppend(a: seq<Entry>, e: Entry)
    ensures BodySizes(a + [e]) == BodySizes(a) + BodySize(e)
    decreases |a|
  {
    if a == [] {
      assert a + [e] == [e] && [e][1..] == [];
    } else {
      BodySizesAppend(a[1..], e);
      assert (a + [e])[1..] == a[1..] + [e];
    }
  }

  lemma {:induction false} RecordsAppend(a: seq<Entry>, e: Entry, offset: nat)
    ensures Records(a + [e], offset) == Records(a, offset) + RecordBytes(e, offset + BodySizes(a))
    decreases |a|
  {
    hide RecordBytes, BodySize, HeaderSize;
    if a == [] {
      assert a + [e] == [e] && [e][1..] == [];
      assert Records([e], offset) == RecordBytes(e, offset) + Records([], offset + BodySize(e));
    } else {
      var r, rest := RecordBytes(a[0], offset), offset + BodySize(a[0]);
      RecordsAppend(a[1..], e, rest);
      assert (a + [e])[1..] == a[1..] + [e];
      assert r + (Records(a[1..], rest) + RecordBytes(e, rest + BodySizes(a[1..]))) == r + Records(a[1..], rest)
          + RecordBytes(e, rest + BodySizes(a[1..]));
    }
  }

  ghost function Body(e: Entry): seq<byte> {
    if e.RawEntry? then [] else e.patch
  }

  lemma BodiesFirst(es: seq<Entry>)
    requires es != []
    ensures Bodies(es) == Body(es[0]) + Bodies(es[1..])
  {
  }

  lemma BodiesNone()
    ensures Bodies([]) == []
  {
  }

  lemma {:induction false} BodiesAppend(a: seq<Entry>, e: Entry)
    ensures Bodies(a + [e]) == Bodies(a) + Body(e)
    decreases |a|
  {
    hide Bodies, Body;
    BodiesFirst(a + [e]);
    BodiesNone();
    if a == [] {
      assert a + [e] == [e] && [e][1..] == [];
    } else {
      BodiesFirst(a);
      BodiesAppend(a[1..], e);
      assert (a + [e])[1..] == a[1..] + [e];
      assert Body(a[0]) + (Bodies(a[1..]) + Body(e)) == Body(a[0]) + Bodies(a[1..]) + Body(e);
    }
  }

  /** Lines 977-991. */
  method HeaderTotal(es: seq<Entry>) returns (total: nat)
    ensures total == 12 + HeaderSizes(es)
  {
    hide HeaderSize;
    total := 12;
    for i := 0 to |es|
      invariant total == 12 + HeaderSizes(es[..i])
    {
      HeaderSizesAppend(es[..i], es[i]);
      assert es[..i+1] == es[..i] + [es[i]];
      total := total + HeaderSize(es[i]);
    }
    assert es[..|es|] == es;
  }

  /** Lines 1001-1038: the offset accumulator starts behind the headers. */
  method WriteRecords(es: seq<Entry>, first: nat) returns (bytes: seq<byte>)
    ensures bytes == Records(es, first)
  {
    hide RecordBytes, BodySize, HeaderSize, Records;
    var offset := first;
    bytes := [];
    RecordsEmpty(first);
    assert es[..0] == [];
    for i := 0 to |es|
      invariant offset == first + BodySizes(es[..i])
      invariant bytes == Records(es[..i], first)
    {
      RecordsAppend(es[..i], es[i], first);
      BodySizesAppend(es[..i], es[i]);
      assert es[..i+1] == es[..i] + [es[i]];
      bytes := bytes + RecordBytes(es[i], offset);
      offset := offset + BodySize(es[i]);
    }
    assert es[..|es|] == es;
  }

  lemma RecordsEmpty(offset: nat)
    ensures Records([], offset) == []
  {
  }

  /** Lines 1042-1046. */
  method WriteBodies(es: seq<Entry>) returns (bytes: seq<byte>)
    ensures bytes == Bodies(es)
  {
    bytes := [];
    for i := 0 to |es|
      invariant bytes == Bodies(es[..i])
    {
      BodiesAppend(es[..i], es[i]);
      assert es[..i+1] == es[..i] + [es[i]];
      if !es[i].RawEntry? {
        bytes := bytes + es[i].patch;
      }
    }
    assert es[..|es|] == es;
  }

  /** total_header_size is the number of header bytes then written, and each offset is where its patch goes. */
  method WriteImageFile(es: seq<Entry>) returns (file: seq<byte>)
    ensures file == ImageFile(es)
  {
    var total := HeaderTotal(es);
    var records := WriteRecords(es, total);
    var bodies := WriteBodies(es);
    file := IMGDIFF2 + Write(|es|, 4) + records + bodies;
  }

  // ----- the whole program -----

  lemma {:induction false} TiledConcat(z: Zlib, img: seq<byte>, cs: seq<Chunk>, from: nat, to: nat)
    requires Tiled(z, img, cs, from, to)
    ensures from <= to && (cs != [] ==> to <= |img|)
    ensures cs != [] ==> Joined(Pieces(img, cs)) == img[from..to]
    decreases |cs|
  {
    if cs != [] {
      var next := from + Extent(cs[0]);
      TiledConcat(z, img, cs[1..], next, to);
      assert Pieces(img, cs)[1..] == Pieces(img, cs[1..]);
      if cs[1..] == [] {
        assert Joined(Pieces(img, cs[1..])) == [];
      }
      assert img[from..next] + img[next..to] == img[from..to];
    }
  }

  /** The image bytes of every chunk. */
  ghost function Pieces(img: seq<byte>, cs: seq<Chunk>): (r: seq<seq<byte>>)
    ensures |r| == |cs|
  {
    seq(|cs|, i requires 0 <= i < |cs| => if cs[i].start + Extent(cs[i]) <= |img| then Covered(img, cs[i]) else [])
  }

  /** A deflate chunk in the merged list was in the list before. */
  lemma {:induction false} MergedSettled(z: Zlib, img: seq<byte>, cs: seq<Chunk>)
    requires Settled(z, img, cs, |cs|)
    ensures Settled(z, img, Merged(cs), |Merged(cs)|)
    decreases |cs|
  {
    hide Recompresses;
    if cs != [] {
      assert Settled(z, img, cs[1..], |cs[1..]|);
      MergedSettled(z, img, cs[1..]);
    }
  }

  lemma ParallelMerged(z: Zlib, src: seq<byte>, sc: seq<Chunk>, tgt: seq<byte>, tc: seq<Chunk>)
    requires Parallel(z, src, sc, tgt, tc)
    ensures Parallel(z, src, Merged(sc), tgt, Merged(tc)) && |Merged(sc)| == |Merged(tc)| <= |tc|
  {
    MergedTiled(z, src, sc, 0, |src|);
    MergedTiled(z, tgt, tc, 0, |tgt|);
    MergedParallel(z, src, sc, 0, |src|);
    MergedParallel(z, tgt, tc, 0, |tgt|);
    assert |Kinds(Merged(sc))| == |Kinds(Merged(tc))|;
  }

  /** What an entry yields does not depend on the memory behind the source. */
  lemma YieldsBehind(bz: Bzip, z: Zlib, src: seq<byte>, memory: seq<byte>, e: Entry, out: seq<byte>)
    requires src <= memory && Yields(bz, z, src, e, out)
    ensures Yields(bz, z, memory, e, out)
  {
    hide DecodesTo;
    if !e.RawEntry? {
      var i, j := e.sourceStart, e.sourceStart + e.sourceLen;
      assert src[i..j] == memory[i..j];
    }
  }

  /** A file whose entries stand for all chunks of a tiled target has that target as its image. */
  lemma FileImage(bz: Bzip, z: Zlib, src: seq<byte>, memory: seq<byte>, tgt: seq<byte>, tc: seq<Chunk>, es: seq<Entry>)
    requires Tiled(z, tgt, tc, 0, |tgt|) && |es| == |tc| < 0x8000_0000 && Entries(bz, z, src, tgt, tc, es)
    requires |ImageFile(es)| <= OFF_MAX && src <= memory
    ensures HasImage(bz, z, memory, ImageFile(es), tgt)
  {
    hide Yields, Writable, Image, Parts;
    TiledConcat(z, tgt, tc, 0, |tgt|);
    assert tgt[0..|tgt|] == tgt;
    var outs := Pieces(tgt, tc);
    forall i | 0 <= i < |es|
      ensures Writable(es[i]) && Yields(bz, z, memory, es[i], outs[i])
    {
      BodyWithin(es, i);
      YieldsBehind(bz, z, src, memory, es[i], outs[i]);
    }
    assert Joined(outs) == tgt;
    ImageFileParts(bz, z, memory, es, outs);
  }

  /** The full output of the patch, for this source, is `out`. */
  ghost predicate HasImage(bz: Bzip, z: Zlib, src: seq<byte>, patch: seq<byte>, out: seq<byte>) {
    Parts(bz, z, src, patch).Some? && Image(Parts(bz, z, src, patch).value) == Some(out)
  }

  lemma {:induction false} BodyWithinBodies(es: seq<Entry>, i: nat)
    requires i < |es|
    ensures BodySize(es[i]) <= |Bodies(es)|
    decreases |es|
  {
    if i > 0 {
      BodyWithinBodies(es[1..], i - 1);
    }
  }

  lemma BodyWithin(es: seq<Entry>, i: nat)
    requires i < |es|
    ensures BodySize(es[i]) <= |ImageFile(es)|
  {
    BodyWithinBodies(es, i);
  }

  /** How a run of imgdiff ends. */
  datatype Outcome = Patch(file: seq<byte>) | Refused | WentAwry | NoEnd(reading: Reading)

  /** ReadImage with the first merge; `image` is the part of its buffer that the chunks stand for. */
  method ReadMerged(z: Zlib, img: seq<byte>) returns (r: Reading, image: seq<byte>, chunks: array<Chunk>, n: nat)
    requires z.WellBehaved()
    ensures r == Layout(z, img, 0) && fresh(chunks) && n <= chunks.Length
    ensures r.Chunks? ==> chunks[..n] == Merged(r.chunks) && image == Whole(z, img) && n <= |image|
    ensures r.Chunks? ==> Tiled(z, image, chunks[..n], 0, |image|)
  {
    hide Layout, Tiled, Zlib.WellBehaved, End, Merged;
    var end;
    r, end := ReadImage(z, img);
    if !r.Chunks? {
      chunks := new Chunk[0];
      return r, [], chunks, 0;
    }
    var cs := r.chunks;
    chunks := new Chunk[|cs|](i requires 0 <= i < |cs| => cs[i]);
    assert chunks[..|cs|] == cs;
    n := MergeAdjacentNormalChunks(chunks, |cs|);
    LayoutTiles(z, img);
    image := Buffer(img)[..end];
    MergedTiled(z, image, cs, 0, |image|);
  }

  /** Some footer of the image that imgdiff accepts lies partly in the padding. */
  ghost predicate CutShort(z: Zlib, img: seq<byte>) {
    exists p :: Visits(z, img, 0, p) && Crosses(z, img, p)
  }

  /** Exactly the images that are not cut short are what their chunks stand for. */
  lemma WholeUnlessCut(z: Zlib, img: seq<byte>)
    ensures Whole(z, img) == img <==> !CutShort(z, img)
  {
    hide Visits, Crosses, End;
    WholeExactly(z, img, 0);
    if End(z, img, 0) == |img| {
      assert Buffer(img)[..|img|] == img;
    }
  }

  /** `r` is a patch whose full output is `out` for any memory that begins with `src`. */
  ghost predicate Makes(bz: Bzip, z: Zlib, src: seq<byte>, r: Outcome, out: seq<byte>) {
    r.Patch? && forall memory: seq<byte> :: src <= memory ==> HasImage(bz, z, memory, r.file, out)
  }

  /**
   imgdiff in image mode.  For every pair of images (whose sizes fit the 4-byte fields) the patch it
   writes has, as its full output, the target's bytes and the zero bytes that its last footer took from the
   padding, for the source with its own such zero bytes behind it; a patch is written exactly when both
   images have the same chunk structure, and "merging normal chunks went awry" never happens.
   */
  method ImgDiff(bz: Bzip, z: Zlib, src: seq<byte>, tgt: seq<byte>) returns (r: Outcome)
    requires bz.Lossless() && z.WellBehaved() && |src| + 4 < 0x8000_0000 && |tgt| + 4 < 0x8000_0000
    ensures r.Patch? && |r.file| <= OFF_MAX ==> Makes(bz, z, Whole(z, src), r, Whole(z, tgt))
    ensures r.Patch? <==> SameStructure(z, src, tgt)
    ensures !r.WentAwry?
  {
    hide Tiled, Entries, ImageFile, Merged, Kinds, Layout, Makes, Whole, Bzip.Lossless, Zlib.WellBehaved, Parallel;
    hide Settled;
    var sr, simg, sc, sn := ReadMerged(z, src);
    var tr, timg, tc, tn := ReadMerged(z, tgt);
    if !sr.Chunks? { return if sr.Rejected? then Refused else NoEnd(sr); }
    if !tr.Chunks? { return if tr.Rejected? then Refused else NoEnd(tr); }
    if sn != tn {
      KindsLength(sc[..sn], tc[..tn]);
      return Refused;
    }
    var same := SameKinds(sc, tc, sn);
    if !same { return Refused; }
    WholeSize(z, src);
    WholeSize(z, tgt);
    assert Parallel(z, simg, sc[..sn], timg, tc[..sn]) by { TilesParallel(z, simg, sc[..sn], timg, tc[..sn]); }
    r := DiffChunks(bz, z, simg, sc, timg, tc, sn);
  }

  lemma WholeSize(z: Zlib, img: seq<byte>)
    ensures |Whole(z, img)| <= |img| + 4
  {
  }

  lemma TilesParallel(z: Zlib, src: seq<byte>, sc: seq<Chunk>, tgt: seq<byte>, tc: seq<Chunk>)
    requires Tiled(z, src, sc, 0, |src|) && Tiled(z, tgt, tc, 0, |tgt|) && Kinds(sc) == Kinds(tc)
    ensures Parallel(z, src, sc, tgt, tc)
  {
  }

  /** Lines 879-1050, on two lists of the same structure. */
  method DiffChunks(bz: Bzip, z: Zlib, src: seq<byte>, sc: array<Chunk>, tgt: seq<byte>, tc: array<Chunk>, n: nat)
    returns (r: Outcome)
    requires bz.Lossless() && z.WellBehaved() && |src| < 0x8000_0000 && |tgt| < 0x8000_0000
    requires sc != tc && n <= sc.Length && n <= tc.Length && n <= |tgt| && Parallel(z, src, sc[..n], tgt, tc[..n])
    modifies sc, tc
    ensures r.Patch? && (|r.file| <= OFF_MAX ==> Makes(bz, z, src, r, tgt))
  {
    hide Tiled, Entries, ImageFile, Merged, Kinds, Makes, Bzip.Lossless, Zlib.WellBehaved, Parallel, Settled;
    Settle(z, src, sc, tgt, tc, n);
    ghost var ss, tt := sc[..n], tc[..n];
    ParallelMerged(z, src, ss, tgt, tt);
    MergedSettled(z, tgt, tt);
    SettledLength(z, src, ss, tgt, tt);
    var tn := MergeAdjacentNormalChunks(tc, n);
    assert sc[..n] == ss;
    var sn := MergeAdjacentNormalChunks(sc, n);
    if sn != tn { return WentAwry; }
    var es := MakePatches(bz, z, src, sc[..sn], tgt, tc[..tn]);
    var file := WriteImageFile(es);
    r := Patch(file);
    if |file| <= OFF_MAX {
      FileMakes(bz, z, src, tgt, tc[..tn], es);
    }
  }

  lemma FileMakes(bz: Bzip, z: Zlib, src: seq<byte>, tgt: seq<byte>, tc: seq<Chunk>, es: seq<Entry>)
    requires Tiled(z, tgt, tc, 0, |tgt|) && |es| == |tc| < 0x8000_0000 && Entries(bz, z, src, tgt, tc, es)
    requires |ImageFile(es)| <= OFF_MAX
    ensures Makes(bz, z, src, Patch(ImageFile(es)), tgt)
  {
    hide Tiled, Entries, ImageFile, HasImage;
    forall memory: seq<byte> | src <= memory
      ensures HasImage(bz, z, memory, ImageFile(es), tgt)
    {
      FileImage(bz, z, src, memory, tgt, tc, es);
    }
  }

  /**
   Both programs, one after the other, with a source that is not cut short: the sink ends up holding the
   target image if and only if the target is not cut short either.
   */
  method DiffAndPatch(bz: Bzip, z: Zlib, src: seq<byte>, tgt: seq<byte>) returns (r: Outcome, made: seq<byte>)
    requires bz.Lossless() && z.WellBehaved() && |src| + 4 < 0x8000_0000 && |tgt| + 4 < 0x8000_0000
    ensures r.Patch? <==> SameStructure(z, src, tgt)
    ensures r.Patch? && |r.file| <= OFF_MAX && !CutShort(z, src) ==> made == Whole(z, tgt)
    ensures r.Patch? && |r.file| <= OFF_MAX && !CutShort(z, src) ==> (made == tgt <==> !CutShort(z, tgt))
  {
    hide Zlib.WellBehaved, SameStructure, ApplyImage, CutShort, Whole, Parts, Image;
    r := ImgDiff(bz, z, src, tgt);
    made := [];
    WholeUnlessCut(z, src);
    WholeUnlessCut(z, tgt);
    WholeSize(z, tgt);
    if r.Patch? {
      var out := new Outlet(true, |tgt| + 4, []);
      if |r.file| <= OFF_MAX && !CutShort(z, src) {
        assert HasImage(bz, z, src, r.file, Whole(z, tgt));
        ImageApplies(bz, z, src, r.file, Work(out.Value(), []));
      }
      var o, hashed := ApplyImagePatch(bz, z, src, r.file, out);
      if o.Ok? { made := out.buffer[..out.pos]; }
    }
  }

  /** An image that lacks the last byte of an empty member's footer comes out one byte longer. */
  lemma CutTargetGrows(z: Zlib)
    requires z.inflate([3, 0, 0, 0, 0, 0, 0, 0, 0]) == Some(Inflated([], 2))
    ensures SameStructure(z, CUT_MEMBER, CUT_MEMBER) && CutShort(z, CUT_MEMBER)
    ensures Whole(z, CUT_MEMBER) == CUT_MEMBER + [0]
  {
    hide Layout, Visits, Crosses, Whole;
    CutFooter(z);
  }

  /** Both images can be read and have the same sequence of normal and deflate chunks once merged. */
  ghost predicate SameStructure(z: Zlib, src: seq<byte>, tgt: seq<byte>) {
    var s, t := Layout(z, src, 0), Layout(z, tgt, 0);
    s.Chunks? && t.Chunks? && Kinds(Merged(s.chunks)) == Kinds(Merged(t.chunks))
  }

  lemma KindsLength(a: seq<Chunk>, b: seq<Chunk>)
    requires |a| != |b|
    ensures Kinds(a) != Kinds(b)
  {
    assert |Kinds(a)| != |Kinds(b)|;
  }

  lemma SettledLength(z: Zlib, src: seq<byte>, sc: seq<Chunk>, tgt: seq<byte>, tc: seq<Chunk>)
    requires Parallel(z, src, sc, tgt, tc)
    ensures |sc| == |tc| && Tiled(z, tgt, tc, 0, |tgt|) && Tiled(z, tgt, Merged(tc), 0, |tgt|)
  {
    assert |Kinds(sc)| == |Kinds(tc)|;
    MergedTiled(z, tgt, tc, 0, |tgt|);
  }

  /** Lines 866-876. */
  method SameKinds(sc: array<Chunk>, tc: array<Chunk>, n: nat) returns (same: bool)
    requires n <= sc.Length && n <= tc.Length
    ensures same <==> Kinds(sc[..n]) == Kinds(tc[..n])
  {
    for i := 0 to n
      invariant forall k :: 0 <= k < i ==> sc[k].Normal? == tc[k].Normal?
    {
      if sc[i].Normal? != tc[i].Normal? {
        assert Kinds(sc[..n])[i] != Kinds(tc[..n])[i];
        return false;
      }
    }
    return true;
  }
}
