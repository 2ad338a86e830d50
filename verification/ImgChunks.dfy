/**
 imgdiff.c, first half: breaking an image into chunks (ReadImage) and merging neighbouring
 normal chunks in place (MergeAdjacentNormalChunks).
 */
module ImgChunks {
  import opened Bytes
  import opened BsPatch
  import opened ImgPatch

  /**
   An ImageChunk before MakePatch.  `at` is the offset in the image that the data pointer (for deflate
   chunks, the compressed data pointer) has; a deflate chunk owns its expanded `data`.
   */
  datatype Chunk =
    | Normal(start: nat, len: nat, at: nat)
    | Deflate(start: nat, at: nat, data: seq<byte>, deflateLen: nat, enc: Encoder)

  const NO_ENCODER := Encoder(0, 0, 0, 0, 0)
  const GZIP_HEADER_LEN: nat := 10
  const GZIP_FOOTER_LEN: nat := 8

  /** The number of image bytes a chunk stands for. */
  function Extent(c: Chunk): (r: nat) {
    if c.Normal? then c.len else c.deflateLen
  }

  // ----- ReadImage -----

  /** The image with the four zero bytes that ReadImage appends (line 396). */
  function Buffer(img: seq<byte>): (r: seq<byte>) {
    img + [0, 0, 0, 0]
  }

  function Padded(img: seq<byte>, i: nat): (r: byte) {
    if i < |img| then img[i] else 0
  }

  /** 1f 8b 08 00 at `p`, looking into the padding if need be. */
  predicate Magic(img: seq<byte>, p: nat) {
    Padded(img, p) == 0x1f && Padded(img, p + 1) == 0x8b && Padded(img, p + 2) == 0x08 && Padded(img, p + 3) == 0x00
  }

  /** Lines 506-513: the next magic at or after `p`, or the end of the image. */
  function NextMagic(img: seq<byte>, p: nat): (r: nat)
    requires p <= |img|
    ensures p <= r <= |img| && (r == |img| || Magic(img, r))
    ensures forall i :: p <= i < r ==> !Magic(img, i)
    decreases |img| - p
  {
    if p == |img| || Magic(img, p) then p else NextMagic(img, p + 1)
  }

  /**
   How ReadImage can end: with a chunk list, refusing the image, never (the loop makes no progress),
   or behind its buffer (the image ends inside a gzip header, or more than four bytes before the end of
   a footer; the source does not check).
   */
  datatype Reading = Chunks(chunks: seq<Chunk>) | Rejected | Stuck | Overrun

  function Prepend(cs: seq<Chunk>, r: Reading): Reading {
    if r.Chunks? then Chunks(cs + r.chunks) else r
  }

  /** An `int` compared with a `size_t`. */
  function SizeT(x: int): int {
    if x < 0 then x + 0x1_0000_0000_0000_0000 else x
  }

  /** One turn of the loop: it ends the reading, or adds chunks and moves on. */
  datatype Turn = Stop(why: Reading) | More(added: seq<Chunk>, next: nat)

  function Member(pos: nat, x: Inflated): (r: seq<Chunk>) {
    var body := pos + GZIP_HEADER_LEN;
    var foot := body + x.used;
    [Normal(pos, GZIP_HEADER_LEN, pos)] + ([Deflate(body, body, x.data, x.used, NO_ENCODER)]
      + [Normal(foot, GZIP_FOOTER_LEN, foot)])
  }

  /** Lines 404-515 at `pos`; the footer may reach into the padding. */
  function Next(z: Zlib, img: seq<byte>, pos: nat): (r: Turn)
    requires pos < |img|
    ensures r.More? ==> pos < r.next <= |img| + 4
    ensures r.Stop? ==> !r.why.Chunks?
  {
    if |img| - pos >= 4 && Magic(img, pos) then
      var body := pos + GZIP_HEADER_LEN;
      if body > |img| then Stop(Overrun)
      else
        match z.inflate(img[body..])
        case None => Stop(Stuck)
        case Some(x) =>
          var foot := body + x.used;
          if foot + GZIP_FOOTER_LEN > |Buffer(img)| then Stop(Overrun)
          else if SizeT(Read(Buffer(img)[foot+4..foot+8])) != |x.data| then Stop(Rejected)
          else More(Member(pos, x), foot + GZIP_FOOTER_LEN)
    else
      var end := NextMagic(img, pos);
      if end == pos then Stop(Stuck) else More([Normal(pos, end - pos, pos)], end)
  }

  /** What ReadImage makes of the image from `pos` on. */
  function Layout(z: Zlib, img: seq<byte>, pos: nat): (r: Reading)
    decreases |img| - pos
  {
    if pos >= |img| then Chunks([])
    else
      match Next(z, img, pos)
      case Stop(why) => why
      case More(added, next) => Prepend(added, Layout(z, img, next))
  }

  /** Where the loop leaves `pos` at the end of a layout. */
  function End(z: Zlib, img: seq<byte>, pos: nat): (r: nat)
    requires pos <= |img| + 4
    ensures |img| <= r <= |img| + 4
    decreases |img| - pos
  {
    if pos >= |img| then pos
    else
      match Next(z, img, pos)
      case Stop(_) => |img|
      case More(_, next) => End(z, img, next)
  }

  /** The bytes that the chunks stand for: the image and as much of the padding as a last footer takes. */
  function Whole(z: Zlib, img: seq<byte>): (r: seq<byte>)
    ensures img <= r && |r| == End(z, img, 0)
  {
    Buffer(img)[..End(z, img, 0)]
  }

  lemma PrependTwice(a: seq<Chunk>, b: seq<Chunk>, r: Reading)
    ensures Prepend(a, Prepend(b, r)) == Prepend(a + b, r)
  {
    if r.Chunks? {
      assert a + (b + r.chunks) == a + b + r.chunks;
    }
  }

  method ReadOne(z: Zlib, img: seq<byte>, pos: nat) returns (r: Turn)
    requires pos < |img|
    ensures r == Next(z, img, pos)
  {
    if |img| - pos >= 4 && Magic(img, pos) {
      var body := pos + GZIP_HEADER_LEN;
      if body > |img| { return Stop(Overrun); }
      var x := z.inflate(img[body..]);
      if x.None? { return Stop(Stuck); }
      var foot := body + x.value.used;
      if foot + GZIP_FOOTER_LEN > |Buffer(img)| { return Stop(Overrun); }
      if SizeT(Read(Buffer(img)[foot+4..foot+8])) != |x.value.data| { return Stop(Rejected); }
      return More(Member(pos, x.value), foot + GZIP_FOOTER_LEN);
    }
    var len := 0;
    while pos + len < |img| && !Magic(img, pos + len)
      invariant 0 <= len <= |img| - pos && NextMagic(img, pos) == NextMagic(img, pos + len)
    {
      len := len + 1;
    }
    return if len == 0 then Stop(Stuck) else More([Normal(pos, len, pos)], pos + len);
  }

  method ReadImage(z: Zlib, img: seq<byte>) returns (r: Reading, end: nat)
    ensures r == Layout(z, img, 0) && (r.Chunks? ==> end == End(z, img, 0))
  {
    hide Next;
    var chunks: seq<Chunk> := [];
    var pos := 0;
    while pos < |img|
      invariant 0 <= pos <= |img| + 4
      invariant Layout(z, img, 0) == Prepend(chunks, Layout(z, img, pos)) && End(z, img, 0) == End(z, img, pos)
      decreases |img| - pos
    {
      var turn := ReadOne(z, img, pos);
      match turn {
        case Stop(why) =>
          return why, 0;
        case More(added, next) =>
          PrependTwice(chunks, added, Layout(z, img, next));
          chunks := chunks + added;
          pos := next;
      }
    }
    return Chunks(chunks), pos;
  }

  // ----- tiling -----

  /** The chunk's data is the image's own, and a deflate chunk's data is what its bytes inflate to. */
  ghost predicate WellFormed(z: Zlib, img: seq<byte>, c: Chunk) {
    && c.at == c.start && c.start + Extent(c) <= |img|
    && (c.Deflate? ==>
          z.inflate(img[c.start..c.start+c.deflateLen]).Some?
            && z.inflate(img[c.start..c.start+c.deflateLen]).value.data == c.data)
  }

  /** The chunks cover `from..to` of the image in order, without gap or overlap. */
  ghost predicate Tiled(z: Zlib, img: seq<byte>, cs: seq<Chunk>, from: nat, to: nat) {
    if cs == [] then from == to
    else WellFormed(z, img, cs[0]) && cs[0].start == from && Tiled(z, img, cs[1..], from + Extent(cs[0]), to)
  }

  /** The image bytes of a chunk. */
  ghost function Covered(img: seq<byte>, c: Chunk): seq<byte>
    requires c.start + Extent(c) <= |img|
  {
    img[c.start..c.start+Extent(c)]
  }

  lemma {:induction false} TiledAppend(z: Zlib, img: seq<byte>, a: seq<Chunk>, b: seq<Chunk>, from: nat, mid: nat,
                                       to: nat)
    requires Tiled(z, img, a, from, mid) && Tiled(z, img, b, mid, to)
    ensures Tiled(z, img, a + b, from, to)
    decreases |a|
  {
    if a == [] {
      assert a + b == b;
    } else {
      TiledAppend(z, img, a[1..], b, from + Extent(a[0]), mid, to);
      assert (a + b)[1..] == a[1..] + b;
    }
  }

  /** Every turn's chunks tile the bytes it moves over. */
  lemma NextTiles(z: Zlib, img: seq<byte>, pos: nat)
    requires z.WellBehaved() && pos < |img| && Next(z, img, pos).More?
    ensures var m := Next(z, img, pos); Tiled(z, Buffer(img), m.added, pos, m.next) && |m.added| <= m.next - pos
  {
    hide Read, SizeT, Member, Zlib.WellBehaved;
    var m := Next(z, img, pos);
    if |img| - pos >= 4 && Magic(img, pos) {
      var body := pos + GZIP_HEADER_LEN;
      MemberTiles(z, img, pos, z.inflate(img[body..]).value);
    } else {
      assert m.added[1..] == [];
      assert Tiled(z, Buffer(img), m.added[1..], m.next, m.next);
    }
  }

  lemma MemberTiles(z: Zlib, img: seq<byte>, pos: nat, x: Inflated)
    requires z.WellBehaved() && pos + GZIP_HEADER_LEN <= |img|
    requires pos + GZIP_HEADER_LEN + x.used + GZIP_FOOTER_LEN <= |Buffer(img)|
    requires z.inflate(img[pos+GZIP_HEADER_LEN..]) == Some(x)
    ensures |Member(pos, x)| == 3
    ensures Tiled(z, Buffer(img), Member(pos, x), pos, pos + GZIP_HEADER_LEN + x.used + GZIP_FOOTER_LEN)
  {
    hide Tiled, Zlib.WellBehaved;
    InflatePrefix(z, img[pos+GZIP_HEADER_LEN..]);
    var body := pos + GZIP_HEADER_LEN;
    var foot := body + x.used;
    var end := foot + GZIP_FOOTER_LEN;
    var a, c := Normal(pos, GZIP_HEADER_LEN, pos), Normal(foot, GZIP_FOOTER_LEN, foot);
    var b := Deflate(body, body, x.data, x.used, NO_ENCODER);
    assert img[body..][..x.used] == Buffer(img)[body..foot];
    TiledOne(z, Buffer(img), c);
    TiledCons(z, Buffer(img), b, [c], end);
    TiledCons(z, Buffer(img), a, [b] + [c], end);
  }

  lemma TiledOne(z: Zlib, img: seq<byte>, c: Chunk)
    requires WellFormed(z, img, c)
    ensures Tiled(z, img, [c], c.start, c.start + Extent(c))
  {
    assert [c][1..] == [];
  }

  lemma TiledCons(z: Zlib, img: seq<byte>, c: Chunk, cs: seq<Chunk>, to: nat)
    requires WellFormed(z, img, c) && Tiled(z, img, cs, c.start + Extent(c), to)
    ensures Tiled(z, img, [c] + cs, c.start, to)
  {
    assert ([c] + cs)[1..] == cs;
  }

  lemma {:induction false} LayoutTilesFrom(z: Zlib, img: seq<byte>, pos: nat)
    requires z.WellBehaved() && pos <= |img| + 4 && Layout(z, img, pos).Chunks?
    ensures Tiled(z, Buffer(img), Layout(z, img, pos).chunks, pos, End(z, img, pos))
    ensures |Layout(z, img, pos).chunks| <= End(z, img, pos) - pos
    decreases |img| - pos
  {
    hide Next, WellFormed, Zlib.WellBehaved;
    if pos < |img| {
      var m := Next(z, img, pos);
      NextTiles(z, img, pos);
      LayoutTilesFrom(z, img, m.next);
      TiledAppend(z, Buffer(img), m.added, Layout(z, img, m.next).chunks, pos, m.next, End(z, img, pos));
    }
  }

  /** Chunks that stop at `to` do not need what is behind. */
  lemma {:induction false} TiledFront(z: Zlib, img: seq<byte>, cs: seq<Chunk>, from: nat, to: nat)
    requires Tiled(z, img, cs, from, to) && to <= |img|
    ensures from <= to && Tiled(z, img[..to], cs, from, to)
    decreases |cs|
  {
    if cs != [] {
      var c := cs[0];
      TiledFront(z, img, cs[1..], from + Extent(c), to);
      assert img[..to] == img[0..0+to];
      SubSlice(img, 0, to, c.start, c.start + Extent(c));
    }
  }

  /** Whatever ReadImage returns tiles the image, and the padding that a last footer takes, one byte at least each. */
  lemma LayoutTiles(z: Zlib, img: seq<byte>)
    requires z.WellBehaved() && Layout(z, img, 0).Chunks?
    ensures Tiled(z, Whole(z, img), Layout(z, img, 0).chunks, 0, |Whole(z, img)|)
    ensures |Layout(z, img, 0).chunks| <= |Whole(z, img)|
  {
    hide Layout, Tiled, Zlib.WellBehaved, End;
    LayoutTilesFrom(z, img, 0);
    TiledFront(z, Buffer(img), Layout(z, img, 0).chunks, 0, End(z, img, 0));
  }

  // ----- what the turns meet -----

  /** The loop comes by `p` when it is at `pos`. */
  ghost predicate Visits(z: Zlib, img: seq<byte>, pos: nat, p: nat)
    decreases |img| - pos
  {
    pos == p || (pos < |img| && Next(z, img, pos).More? && Visits(z, img, Next(z, img, pos).next, p))
  }

  /** The image ends in 1f 8b 08, and `p` is there. */
  predicate AtTail(img: seq<byte>, p: nat) {
    p + 3 == |img| && img[p] == 0x1f && img[p+1] == 0x8b && img[p+2] == 0x08
  }

  /** The image holds 1f 8b 08 00 at `p`: a gzip member without header flags. */
  predicate MemberAt(img: seq<byte>, p: nat) {
    p + 4 <= |img| && img[p..p+4] == [0x1f, 0x8b, 0x08, 0x00]
  }

  lemma MagicExactly(img: seq<byte>, p: nat)
    requires p < |img|
    ensures Magic(img, p) <==> MemberAt(img, p) || AtTail(img, p)
    ensures Magic(img, p) && |img| - p >= 4 <==> MemberAt(img, p)
  {
    if p + 4 <= |img| {
      var four := img[p..p+4];
      assert four[0] == img[p] && four[1] == img[p+1] && four[2] == img[p+2] && four[3] == img[p+3];
    }
  }

  /** A member that inflate never finishes. */
  predicate Endless(z: Zlib, img: seq<byte>, p: nat) {
    MemberAt(img, p) && p + GZIP_HEADER_LEN <= |img| && z.inflate(img[p+GZIP_HEADER_LEN..]).None?
  }

  /** A member with header and body inside the image, and a footer that states the size and is inside the buffer. */
  predicate Complete(z: Zlib, img: seq<byte>, p: nat) {
    && p + GZIP_HEADER_LEN <= |img| && z.inflate(img[p+GZIP_HEADER_LEN..]).Some?
    && var x := z.inflate(img[p+GZIP_HEADER_LEN..]).value;
       var foot := p + GZIP_HEADER_LEN + x.used;
       foot + GZIP_FOOTER_LEN <= |Buffer(img)| && SizeT(Read(Buffer(img)[foot+4..foot+8])) == |x.data|
  }

  /** Its footer lies partly in the padding. */
  predicate Crosses(z: Zlib, img: seq<byte>, p: nat) {
    && MemberAt(img, p) && Complete(z, img, p)
    && p + GZIP_HEADER_LEN + z.inflate(img[p+GZIP_HEADER_LEN..]).value.used + GZIP_FOOTER_LEN > |img|
  }

  /** What a turn does, by what is at `pos`. */
  lemma NextExactly(z: Zlib, img: seq<byte>, pos: nat)
    requires pos < |img|
    ensures Next(z, img, pos) == Stop(Stuck) <==> Endless(z, img, pos) || AtTail(img, pos)
    ensures Next(z, img, pos).More? <==> (MemberAt(img, pos) ==> Complete(z, img, pos)) && !AtTail(img, pos)
    ensures Next(z, img, pos).More? ==> (Next(z, img, pos).next > |img| <==> Crosses(z, img, pos))
  {
    hide Read, SizeT, Member, Magic, MemberAt;
    MagicExactly(img, pos);
    if !MemberAt(img, pos) {
      if NextMagic(img, pos) == pos {
        assert Magic(img, pos);
      }
    }
  }

  /** A normal chunk between members: no member begins in it, and it goes on to one, or to the end of the bytes. */
  ghost predicate Between(img: seq<byte>, c: Chunk) {
    && c.Normal? && c.len > 0
    && (forall p :: c.start <= p < c.start + c.len ==> !MemberAt(img, p) && !AtTail(img, p))
    && (var end := c.start + c.len; end == |img| || MemberAt(img, end) || AtTail(img, end))
  }

  /** The three chunks of a member. */
  ghost predicate Triple(img: seq<byte>, head: Chunk, body: Chunk, foot: Chunk) {
    && MemberAt(img, head.start) && head.Normal? && head.len == 10
    && body.Deflate? && body.start == head.start + 10
    && foot.Normal? && foot.start == body.start + body.deflateLen && foot.len == 8
  }

  /** The chunks are those that the bytes of the image call for. */
  ghost predicate ByBytes(img: seq<byte>, cs: seq<Chunk>) {
    || cs == []
    || (|cs| >= 3 && Triple(img, cs[0], cs[1], cs[2]) && ByBytes(img, cs[3..]))
    || (!MemberAt(img, cs[0].start) && Between(img, cs[0]) && ByBytes(img, cs[1..]))
  }

  /** Deflate chunks are where 1f 8b 08 00 is, and no other chunk holds it. */
  lemma {:induction false} LayoutByBytes(z: Zlib, img: seq<byte>, pos: nat)
    requires Layout(z, img, pos).Chunks?
    ensures ByBytes(img, Layout(z, img, pos).chunks)
    decreases |img| - pos
  {
    hide Next, MemberAt, AtTail, Between, Triple;
    if pos < |img| {
      var m := Next(z, img, pos);
      LayoutByBytes(z, img, m.next);
      TurnByBytes(z, img, pos);
      var rest := Layout(z, img, m.next).chunks;
      if MemberAt(img, pos) {
        assert (m.added + rest)[3..] == rest;
      } else {
        assert (m.added + rest)[1..] == rest;
      }
    }
  }

  lemma TurnByBytes(z: Zlib, img: seq<byte>, pos: nat)
    requires pos < |img| && Next(z, img, pos).More?
    ensures var cs := Next(z, img, pos).added;
      if MemberAt(img, pos) then |cs| == 3 && Triple(img, cs[0], cs[1], cs[2])
      else |cs| == 1 && cs[0].start == pos && Between(img, cs[0])
  {
    hide Read, SizeT, Magic, MemberAt, AtTail;
    MagicExactly(img, pos);
    if !MemberAt(img, pos) {
      var end := NextMagic(img, pos);
      forall p | pos <= p < |img|
        ensures Magic(img, p) <==> MemberAt(img, p) || AtTail(img, p)
      {
        MagicExactly(img, p);
      }
    }
  }

  lemma TailBytes(img: seq<byte>, p: nat)
    ensures AtTail(img, p) ==> img[|img|-3..] == [0x1f, 0x8b, 0x08]
  {
  }

  /** An image without 1f 8b 08 00 that does not end in 1f 8b 08 is one normal chunk, whatever else is in it. */
  lemma PlainImage(z: Zlib, img: seq<byte>)
    requires img != [] && forall p: nat :: !MemberAt(img, p)
    requires |img| < 3 || img[|img|-3..] != [0x1f, 0x8b, 0x08]
    ensures Layout(z, img, 0) == Chunks([Normal(0, |img|, 0)])
  {
    hide Magic, MemberAt;
    forall p | 0 <= p < |img|
      ensures !Magic(img, p)
    {
      MagicExactly(img, p);
      TailBytes(img, p);
    }
    assert NextMagic(img, 0) == |img|;
    assert Layout(z, img, |img|) == Chunks([]);
    assert [Normal(0, |img|, 0)] + [] == [Normal(0, |img|, 0)];
  }

  /**
   ReadImage runs forever if and only if it comes by a member that inflate never finishes, or by a 1f 8b 08
   that ends the image.
   */
  lemma {:induction false} StuckExactly(z: Zlib, img: seq<byte>, pos: nat)
    ensures Layout(z, img, pos).Stuck? <==> exists p :: Visits(z, img, pos, p) && (Endless(z, img, p) || AtTail(img, p))
    decreases |img| - pos
  {
    hide Next, Endless, AtTail;
    if pos < |img| {
      NextExactly(z, img, pos);
      if Next(z, img, pos).More? {
        StuckExactly(z, img, Next(z, img, pos).next);
        HaltsHere(z, img, pos);
      } else {
        assert Visits(z, img, pos, pos);
      }
    } else {
      NothingBehind(z, img);
    }
  }

  lemma HaltsHere(z: Zlib, img: seq<byte>, pos: nat)
    requires pos < |img| && Next(z, img, pos).More?
    ensures !Endless(z, img, pos) && !AtTail(img, pos)
  {
    NextExactly(z, img, pos);
    hide Next;
  }

  lemma NothingBehind(z: Zlib, img: seq<byte>)
    ensures forall p :: p >= |img| ==> !Endless(z, img, p) && !AtTail(img, p) && !MemberAt(img, p)
  {
  }

  /**
   ReadImage returns chunks if and only if every member it comes by is complete and it does not come by a
   1f 8b 08 that ends the image.
   */
  lemma {:induction false} ReadExactly(z: Zlib, img: seq<byte>, pos: nat)
    ensures Layout(z, img, pos).Chunks? <==>
      forall p :: Visits(z, img, pos, p) ==> (MemberAt(img, p) ==> Complete(z, img, p)) && !AtTail(img, p)
    decreases |img| - pos
  {
    hide Next, Complete, AtTail, MemberAt;
    if pos < |img| {
      NextExactly(z, img, pos);
      assert Visits(z, img, pos, pos);
      if Next(z, img, pos).More? {
        ReadExactly(z, img, Next(z, img, pos).next);
      }
    } else {
      NothingBehind(z, img);
    }
  }

  /** The chunks stand for exactly the image if and only if no footer crosses its end. */
  lemma {:induction false} WholeExactly(z: Zlib, img: seq<byte>, pos: nat)
    requires pos <= |img|
    ensures End(z, img, pos) == |img| <==> forall p :: Visits(z, img, pos, p) ==> !Crosses(z, img, p)
    decreases |img| - pos
  {
    hide Next, Crosses;
    if pos < |img| {
      NextExactly(z, img, pos);
      assert Visits(z, img, pos, pos);
      if Next(z, img, pos).More? {
        if Next(z, img, pos).next <= |img| {
          WholeExactly(z, img, Next(z, img, pos).next);
        }
      } else {
        StopsNoCross(z, img, pos);
      }
    } else {
      NoCrossBehind(z, img);
    }
  }

  lemma StopsNoCross(z: Zlib, img: seq<byte>, pos: nat)
    requires pos < |img| && Next(z, img, pos).Stop?
    ensures !Crosses(z, img, pos)
  {
    NextExactly(z, img, pos);
    hide Next, Complete, Magic;
  }

  lemma NoCrossBehind(z: Zlib, img: seq<byte>)
    ensures forall p :: p >= |img| ==> !Crosses(z, img, p)
  {
  }

  /** An empty member whose footer lacks its last byte: 19 bytes are read as 20. */
  const CUT_MEMBER: seq<byte> := [0x1f, 0x8b, 0x08, 0, 0, 0, 0, 0, 0, 0, 3, 0, 0, 0, 0, 0, 0, 0, 0]

  lemma CutFooter(z: Zlib)
    requires z.inflate([3, 0, 0, 0, 0, 0, 0, 0, 0]) == Some(Inflated([], 2))
    ensures Layout(z, CUT_MEMBER, 0) == Chunks(Member(0, Inflated([], 2)))
    ensures Whole(z, CUT_MEMBER) == CUT_MEMBER + [0] && Visits(z, CUT_MEMBER, 0, 0) && Crosses(z, CUT_MEMBER, 0)
  {
    hide Member;
    var img := CUT_MEMBER;
    assert img[10..] == [3, 0, 0, 0, 0, 0, 0, 0, 0];
    assert Buffer(img)[16..20] == [0, 0, 0, 0];
    assert Read([0, 0, 0, 0]) == 0 by { ZeroRead(); }
    assert Next(z, img, 0) == More(Member(0, Inflated([], 2)), 20);
    assert Layout(z, img, 20) == Chunks([]);
    assert Member(0, Inflated([], 2)) + [] == Member(0, Inflated([], 2));
    assert Buffer(img)[..20] == img + [0];
  }

  lemma ZeroRead()
    ensures Read([0, 0, 0, 0]) == 0
  {
    assert Write(0, 4) == [0, 0, 0, 0];
    ReadWrite(0, 4);
  }

  // ----- MergeAdjacentNormalChunks -----

  /** `b` is a normal chunk that begins, in file and in memory, where the normal chunk `a` ends. */
  predicate Adjoins(a: Chunk, b: Chunk) {
    a.Normal? && b.Normal? && b.start == a.start + a.len && b.at == a.at + a.len
  }

  /** Put `c` in front of a merged list, joining it with the first chunk if that adjoins. */
  function MergeFront(c: Chunk, rest: seq<Chunk>): (r: seq<Chunk>)
    ensures r != [] && r[0].start == c.start && r[0].at == c.at && r[0].Normal? == c.Normal?
  {
    if rest != [] && Adjoins(c, rest[0]) then [Normal(c.start, c.len + rest[0].len, c.at)] + rest[1..] else [c] + rest
  }

  /** The list with every run of adjoining normal chunks made one. */
  function Merged(cs: seq<Chunk>): (r: seq<Chunk>)
    ensures cs != [] ==> r != [] && r[0].start == cs[0].start && r[0].at == cs[0].at && r[0].Normal? == cs[0].Normal?
  {
    if cs == [] then [] else MergeFront(cs[0], Merged(cs[1..]))
  }

  /** The chunk that lines 749-753 make of the run `i..e-1`. */
  function RunChunk(cs: seq<Chunk>, i: nat, e: nat): (r: Chunk)
    requires i < e <= |cs| && (e > i + 1 ==> cs[i].Normal? && cs[e-1].Normal? && cs[i].start <= cs[e-1].start)
  {
    if e == i + 1 then cs[i] else Normal(cs[i].start, cs[e-1].len + (cs[e-1].start - cs[i].start), cs[i].at)
  }

  /** Chunks `i..e-1` form a run. */
  ghost predicate Solid(cs: seq<Chunk>, i: nat, e: nat) {
    i < e <= |cs| && forall k :: i < k < e ==> Adjoins(cs[k-1], cs[k])
  }

  lemma {:induction false} SolidEnds(cs: seq<Chunk>, i: nat, e: nat)
    requires Solid(cs, i, e)
    ensures e > i + 1 ==> cs[i].Normal? && cs[e-1].Normal? && cs[i].start <= cs[e-1].start
    decreases e - i
  {
    if e > i + 1 {
      assert Adjoins(cs[e-2], cs[e-1]);
      SolidEnds(cs, i, e - 1);
    }
  }

  /** Collapsing a maximal run by its ends is merging its chunks one by one. */
  lemma {:induction false} RunMerged(cs: seq<Chunk>, i: nat, e: nat)
    requires Solid(cs, i, e) && (e < |cs| ==> !Adjoins(cs[e-1], cs[e]))
    ensures e > i + 1 ==> cs[i].Normal? && cs[e-1].Normal? && cs[i].start <= cs[e-1].start
    ensures Merged(cs[i..]) == [RunChunk(cs, i, e)] + Merged(cs[e..])
    decreases e - i
  {
    SolidEnds(cs, i, e);
    assert cs[i..][0] == cs[i] && cs[i..][1..] == cs[i+1..];
    if e > i + 1 {
      RunMerged(cs, i + 1, e);
      assert Adjoins(cs[i], cs[i+1]);
      assert Merged(cs[i+1..])[1..] == Merged(cs[e..]);
    } else if e < |cs| {
      assert cs[e..][0] == cs[e];
    }
  }

  /** Lines 716-729: the end of the run that starts at `inStart`. */
  method RunEnd(chunks: array<Chunk>, n: nat, inStart: nat, ghost cs: seq<Chunk>) returns (inEnd: nat)
    requires inStart < n == |cs| && n <= chunks.Length && forall k :: inStart <= k < n ==> chunks[k] == cs[k]
    ensures Solid(cs, inStart, inEnd) && inStart < inEnd <= n && (inEnd < n ==> !Adjoins(cs[inEnd-1], cs[inEnd]))
  {
    hide Adjoins;
    inEnd := inStart + 1;
    while inEnd < n && Adjoins(chunks[inEnd-1], chunks[inEnd])
      invariant inEnd <= n && Solid(cs, inStart, inEnd)
    {
      inEnd := inEnd + 1;
    }
  }

  /** The in-place merge computes `Merged`. */
  method MergeAdjacentNormalChunks(chunks: array<Chunk>, n: nat) returns (out: nat)
    requires n <= chunks.Length
    modifies chunks
    ensures out <= n && chunks[..out] == Merged(old(chunks[..n]))
  {
    hide Merged, Adjoins, Solid;
    ghost var cs, rest := chunks[..n], Merged(chunks[..n]);
    out := 0;
    var inStart := 0;
    assert chunks[..0] == [] && cs[0..] == cs;
    while inStart < n
      invariant 0 <= out <= inStart <= n
      invariant forall k :: inStart <= k < n ==> chunks[k] == cs[k]
      invariant rest == Merged(cs[inStart..]) && Merged(cs) == chunks[..out] + rest
      decreases n - inStart
    {
      var inEnd := RunEnd(chunks, n, inStart, cs);
      RunMerged(cs, inStart, inEnd);
      ghost var c := RunChunk(cs, inStart, inEnd);
      rest := Merged(cs[inEnd..]);
      Regroup(chunks[..out], c, rest);
      if inEnd == inStart + 1 {
        chunks[out] := chunks[inStart];
      } else {
        chunks[out] := Normal(chunks[inStart].start, chunks[inEnd-1].len
          + (chunks[inEnd-1].start - chunks[inStart].start), chunks[inStart].at);
      }
      out := out + 1;
      inStart := inEnd;
    }
    MergedEmpty();
    assert cs[n..] == [] && chunks[..out] + [] == chunks[..out];
  }

  lemma Regroup<T>(a: seq<T>, x: T, b: seq<T>)
    ensures a + ([x] + b) == (a + [x]) + b
  {
  }

  lemma MergedEmpty()
    ensures Merged([]) == []
  {
  }

  // ----- merging keeps the tiling -----

  /** Merging covers the same bytes, still without gap or overlap. */
  lemma {:induction false} MergedTiled(z: Zlib, img: seq<byte>, cs: seq<Chunk>, from: nat, to: nat)
    requires Tiled(z, img, cs, from, to)
    ensures Tiled(z, img, Merged(cs), from, to) && |Merged(cs)| <= |cs|
    decreases |cs|
  {
    if cs != [] {
      var c, rest := cs[0], Merged(cs[1..]);
      MergedTiled(z, img, cs[1..], from + Extent(c), to);
      if rest != [] && Adjoins(c, rest[0]) {
        assert Merged(cs)[1..] == rest[1..];
      } else {
        assert Merged(cs)[1..] == rest;
      }
    }
  }

  /** Chunk types in order; merging works on these alone when the chunks tile. */
  function Kinds(cs: seq<Chunk>): (r: seq<bool>)
    ensures |r| == |cs| && forall i :: 0 <= i < |cs| ==> r[i] == cs[i].Normal?
  {
    seq(|cs|, i requires 0 <= i < |cs| => cs[i].Normal?)
  }

  ghost function MergedKinds(ks: seq<bool>): seq<bool> {
    if ks == [] then []
    else
      var rest := MergedKinds(ks[1..]);
      if rest != [] && ks[0] && rest[0] then rest else [ks[0]] + rest
  }

  lemma KindsFront(c: Chunk, rest: seq<Chunk>)
    requires rest != [] && c.Normal? && rest[0].Normal? ==> Adjoins(c, rest[0])
    ensures Kinds(MergeFront(c, rest)) == if rest != [] && c.Normal? && rest[0].Normal? then Kinds(rest)
        else [c.Normal?] + Kinds(rest)
  {
  }

  /** The merged list's types depend only on the types before, so parallel lists stay parallel. */
  lemma {:induction false} MergedParallel(z: Zlib, img: seq<byte>, cs: seq<Chunk>, from: nat, to: nat)
    requires Tiled(z, img, cs, from, to)
    ensures Kinds(Merged(cs)) == MergedKinds(Kinds(cs))
    decreases |cs|
  {
    hide MergeFront, WellFormed, Adjoins;
    if cs != [] {
      var c, rest := cs[0], Merged(cs[1..]);
      MergedParallel(z, img, cs[1..], from + Extent(c), to);
      assert Kinds(cs)[1..] == Kinds(cs[1..]);
      if rest != [] && c.Normal? && rest[0].Normal? {
        HeadAdjoins(z, img, cs, from, to);
      }
      KindsFront(c, rest);
    }
  }

  lemma HeadAdjoins(z: Zlib, img: seq<byte>, cs: seq<Chunk>, from: nat, to: nat)
    requires Tiled(z, img, cs, from, to) && cs != [] && Merged(cs[1..]) != []
    requires cs[0].Normal? && Merged(cs[1..])[0].Normal?
    ensures Adjoins(cs[0], Merged(cs[1..])[0])
  {
    assert cs[1..] != [];
  }

  lemma {:induction false} TiledEach(z: Zlib, img: seq<byte>, cs: seq<Chunk>, from: nat, to: nat, i: nat)
    requires Tiled(z, img, cs, from, to) && i < |cs|
    ensures WellFormed(z, img, cs[i])
    decreases |cs|
  {
    if i > 0 {
      TiledEach(z, img, cs[1..], from + Extent(cs[0]), to, i - 1);
    }
  }

  /** Replacing a chunk by another one for the same bytes keeps the tiling. */
  lemma {:induction false} TiledUpdate(z: Zlib, img: seq<byte>, cs: seq<Chunk>, from: nat, to: nat, i: nat, c: Chunk)
    requires Tiled(z, img, cs, from, to) && i < |cs|
    requires WellFormed(z, img, c) && c.start == cs[i].start && Extent(c) == Extent(cs[i])
    ensures Tiled(z, img, cs[i := c], from, to)
    decreases |cs|
  {
    if i > 0 {
      TiledUpdate(z, img, cs[1..], from + Extent(cs[0]), to, i - 1, c);
      assert cs[i := c][1..] == cs[1..][i - 1 := c];
    } else {
      assert cs[i := c][1..] == cs[1..];
    }
  }
}
