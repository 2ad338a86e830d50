/**
 The delta decoder of bspatch.c.

 bzip2 is a compressor and what its streams do: `decompress(z)` is everything the stream `z` delivers, and
 bytes after the end of a compressed stream are ignored, as the end of the last stream of a patch is not
 recorded; `starves(z)` tells that the input is used up before the stream ends.
 */
module BsPatch {
  import opened Bytes

  datatype Option<T> = None | Some(value: T)

  /**
   How a C function can end: with a result, reporting an error, never, or outside the memory it may touch,
   of which nothing is said.
   */
  datatype Result<T> = Ok(value: T) | Failed | Hangs | Undefined

  datatype Bzip = Bzip(compress: seq<byte> -> seq<byte>, decompress: seq<byte> -> seq<byte>,
    starves: seq<byte> -> bool) {
    ghost predicate Lossless() {
      forall x: seq<byte>, tail: seq<byte> :: decompress(compress(x) + tail) == x && !starves(compress(x) + tail)
    }
  }

  /** A code that marks its own end, to show that compression as assumed above is possible. */
  function Wrap(x: seq<byte>): (z: seq<byte>) {
    seq(|x|, _ => 1) + [0] + x
  }

  function Ones(z: seq<byte>): (n: nat)
    ensures n <= |z|
  {
    if z != [] && z[0] == 1 then 1 + Ones(z[1..]) else 0
  }

  function Unwrap(z: seq<byte>): (x: seq<byte>) {
    var n := Ones(z);
    if n + 1 + n <= |z| then z[n+1..n+1+n] else []
  }

  lemma {:induction false} OnesCounted(z: seq<byte>, n: nat)
    requires n < |z| && z[n] == 0 && forall i :: 0 <= i < n ==> z[i] == 1
    ensures Ones(z) == n
    decreases n
  {
    if n > 0 {
      OnesCounted(z[1..], n - 1);
    }
  }

  lemma LosslessPossible() returns (bz: Bzip)
    ensures bz.Lossless()
  {
    bz := Bzip(Wrap, Unwrap, _ => false);
    forall x: seq<byte>, tail: seq<byte> ensures bz.decompress(bz.compress(x) + tail)
      == x && !bz.starves(bz.compress(x) + tail) {
      var z := Wrap(x) + tail;
      OnesCounted(z, |x|);
      assert z[|x|+1..|x|+1+|x|] == x;
    }
  }

  const MAGIC: seq<byte> := [0x42, 0x53, 0x44, 0x49, 0x46, 0x46, 0x34, 0x30]  // "BSDIFF40"

  // ----- what a patch means -----

  /** `diff` added, byte by byte, to `old` from `oldpos` on; positions outside `old` add nothing. */
  function Add(src: seq<byte>, oldpos: int, diff: seq<byte>): (r: seq<byte>)
    ensures |r| == |diff|
  {
    seq(|diff|, i requires 0 <= i < |diff| =>
      if 0 <= oldpos + i < |src| then Plus(diff[i], src[oldpos+i]) else diff[i])
  }

  /** A decoder in the middle of a patch: the streams still to be read, the read position, the output. */
  datatype Playing = Playing(ctrl: seq<byte>, diff: seq<byte>, extra: seq<byte>, oldpos: int, made: seq<byte>)

  /** Which of the three streams starve. */
  datatype Dry = Dry(ctrl: bool, diff: bool, extra: bool)

  /** Asking a stream for more than it has: a starving one makes no progress for ever, another one reports its end. */
  function Lacking<T>(dry: bool): (r: Result<T>) {
    if dry then Hangs else Failed
  }

  /** One control triple (x, y, z): add x bytes of diff to old, copy y bytes of extra, seek by z. */
  function Step(src: seq<byte>, size: int, dry: Dry, p: Playing): (r: Result<Playing>)
    ensures r.Ok? ==> |r.value.ctrl| < |p.ctrl|
  {
    if |p.ctrl| < 24 then Lacking(dry.ctrl)
    else
      var x, y, z := Offtin(p.ctrl[..8]), Offtin(p.ctrl[8..16]), Offtin(p.ctrl[16..24]);
      if |p.made| + x > size then Failed
      else if x < 0 then Undefined
      else if x > |p.diff| then Lacking(dry.diff)
      else if |p.made| + x + y > size then Failed
      else if y < 0 then Undefined
      else if y > |p.extra| then Lacking(dry.extra)
      else Ok(Playing(p.ctrl[24..], p.diff[x..], p.extra[y..], p.oldpos + x + z,
                      p.made + Add(src, p.oldpos, p.diff[..x]) + p.extra[..y]))
  }

  /** Play triples until `size` bytes are made. */
  function Replay(src: seq<byte>, size: int, dry: Dry, p: Playing): (r: Result<seq<byte>>)
    decreases |p.ctrl|
  {
    if |p.made| >= size then Ok(p.made)
    else
      match Step(src, size, dry, p)
      case Ok(q) => Replay(src, size, dry, q)
      case Failed => Failed
      case Hangs => Hangs
      case Undefined => Undefined
  }

  /** The three compressed blocks of the patch stored at `offset`. */
  datatype Blocks = Blocks(ctrl: seq<byte>, diff: seq<byte>, extra: seq<byte>, size: nat)

  /** Lines 141-180: the header; what it says about the lengths is not compared with the patch. */
  function ParseHeader(patch: seq<byte>, offset: int): (r: Result<Blocks>) {
    if offset < 0 || offset + 8 > |patch| then Undefined
    else if patch[offset..offset+8] != MAGIC then Failed
    else if offset + 32 > |patch| then Undefined
    else
      var ctrlLen := Offtin(patch[offset+8..offset+16]);
      var dataLen := Offtin(patch[offset+16..offset+24]);
      var size := Offtin(patch[offset+24..offset+32]);
      var start := offset + 32;
      if ctrlLen < 0 || dataLen < 0 || size < 0 then Failed
      else if start + ctrlLen + dataLen > |patch| then Undefined
      else Ok(Blocks(patch[start..start+ctrlLen], patch[start+ctrlLen..start+ctrlLen+dataLen],
          patch[start+ctrlLen+dataLen..], size))
  }

  function Starving(bz: Bzip, b: Blocks): (r: Dry) {
    Dry(bz.starves(b.ctrl), bz.starves(b.diff), bz.starves(b.extra))
  }

  function Start(bz: Bzip, b: Blocks): (r: Playing) {
    Playing(bz.decompress(b.ctrl), bz.decompress(b.diff), bz.decompress(b.extra), 0, [])
  }

  /** The file that the patch stored at `offset` makes out of `old`. */
  function Decode(bz: Bzip, src: seq<byte>, patch: seq<byte>, offset: int): (r: Result<seq<byte>>) {
    match ParseHeader(patch, offset)
    case Ok(b) => Replay(src, b.size, Starving(bz, b), Start(bz, b))
    case Failed => Failed
    case Hangs => Hangs
    case Undefined => Undefined
  }

  /** A successful replay produces exactly the announced size and never takes back what was made. */
  lemma {:induction false} ReplaySize(src: seq<byte>, size: int, dry: Dry, p: Playing)
    requires |p.made| <= size
    ensures var r := Replay(src, size, dry, p); r.Ok? ==> |r.value| == size && p.made <= r.value
    decreases |p.ctrl|
  {
    hide Add, Offtin;
    if |p.made| < size && Step(src, size, dry, p).Ok? {
      ReplaySize(src, size, dry, Step(src, size, dry, p).value);
    }
  }

  /** The decoder comes to `q` from `p`. */
  ghost predicate Passes(src: seq<byte>, size: int, dry: Dry, p: Playing, q: Playing)
    decreases |p.ctrl|
  {
    p == q || (|p.made| < size && Step(src, size, dry, p).Ok?
      && Passes(src, size, dry, Step(src, size, dry, p).value, q))
  }

  /** Some stream starves and the decoder, with output still to make, asks it for more than it has. */
  predicate Starved(size: int, dry: Dry, p: Playing) {
    |p.made| < size &&
    if |p.ctrl| < 24 then dry.ctrl
    else
      var x, y := Offtin(p.ctrl[..8]), Offtin(p.ctrl[8..16]);
      0 <= x <= size - |p.made| &&
      if x > |p.diff| then dry.diff else |p.extra| < y <= size - |p.made| - x && dry.extra
  }

  /**
   The decoder never returns if and only if it comes to a point where it asks a starving stream for more
   than it has.
   */
  lemma {:induction false} HangsExactly(src: seq<byte>, size: int, dry: Dry, p: Playing)
    ensures Replay(src, size, dry, p).Hangs? <==> exists q :: Passes(src, size, dry, p, q) && Starved(size, dry, q)
    decreases |p.ctrl|
  {
    hide Step, Starved;
    assert Passes(src, size, dry, p, p);
    StepHangs(src, size, dry, p);
    if |p.made| < size && Step(src, size, dry, p).Ok? {
      var next := Step(src, size, dry, p).value;
      HangsExactly(src, size, dry, next);
      if q :| Passes(src, size, dry, next, q) && Starved(size, dry, q) {
        assert Passes(src, size, dry, p, q);
      }
    }
  }

  lemma StepHangs(src: seq<byte>, size: int, dry: Dry, p: Playing)
    ensures Starved(size, dry, p) <==> |p.made| < size && Step(src, size, dry, p).Hangs?
  {
    hide Add, Offtin;
  }

  /** A patch whose streams are complete never makes the decoder hang. */
  lemma CompleteReturns(src: seq<byte>, size: int, p: Playing)
    ensures !Replay(src, size, Dry(false, false, false), p).Hangs?
  {
    hide Replay, Offtin, Passes;
    HangsExactly(src, size, Dry(false, false, false), p);
  }

  // ----- the decoder -----

  /** A bz_stream: the bytes it has yet to deliver, and whether its input is used up then. */
  class Stream {
    var rest: seq<byte>
    const dry: bool

    constructor (data: seq<byte>, dry: bool)
      ensures rest == data && this.dry == dry
    {
      rest := data;
      this.dry := dry;
    }

    /**
     FillBuffer: `size` bytes of the stream go to `buffer` from `at` on, whatever the sizes of the
     pieces in which BZ2_bzDecompress delivers them.  Behind its last byte a complete stream reports its end
     and then an error; a starving one returns BZ_OK without progress.  A negative size becomes a huge one.
     */
    method FillBuffer(buffer: array<byte>, at: nat, size: int) returns (r: Result<()>)
      requires size >= 0 ==> at + size <= buffer.Length
      modifies this, buffer
      ensures r == if size < 0 then Undefined else if size <= |old(rest)| then Ok(()) else Lacking(dry)
      ensures r.Ok? ==> rest == old(rest)[size..]
      ensures r.Ok? ==> buffer[..] == old(buffer[..at]) + old(rest)[..size] + old(buffer[at+size..])
    {
      if size < 0 {
        return Undefined;
      }
      var done := 0;
      ghost var front, all := buffer[..at], rest;
      while done < size
        invariant 0 <= done <= size && done <= |all| && rest == all[done..]
        invariant forall i :: 0 <= i < buffer.Length ==> buffer[i] == if at <= i < at + done then all[i-at]
            else old(buffer[i])
      {
        if |rest| == 0 {
          return Lacking(dry);
        }
        var n: nat :| 1 <= n <= |rest| && n <= size - done;
        forall i | 0 <= i < n {
          buffer[at+done+i] := rest[i];
        }
        rest := rest[n..];
        done := done + n;
      }
      return Ok(());
    }
  }

  /** Lines 220-225. */
  method AddOld(src: seq<byte>, oldpos: int, data: array<byte>, at: nat, len: nat)
    requires at + len <= data.Length
    modifies data
    ensures data[..] == old(data[..at]) + Add(src, oldpos, old(data[at..at+len])) + old(data[at+len..])
  {
    for i := 0 to len
      invariant forall k :: 0 <= k < data.Length ==>
        data[k] == if at <= k < at + i then Add(src, oldpos, old(data[at..at+len]))[k-at] else old(data[k])
    {
      if oldpos + i >= 0 && oldpos + i < |src| {
        data[at+i] := Plus(data[at+i], src[oldpos+i]);
      }
    }
  }

  /** Lines 199-245: one triple, written in place behind the `newpos` bytes already made. */
  method PlayTriple(src: seq<byte>, cstream: Stream, dstream: Stream, estream: Stream, buf: array<byte>,
                    data: array<byte>, size: nat, oldpos: int, newpos: nat)
    returns (r: Result<()>, oldpos': int, newpos': nat)
    requires cstream != dstream && cstream != estream && dstream != estream && buf != data
    requires buf.Length == 24 && data.Length == size && newpos <= size
    modifies cstream, dstream, estream, buf, data
    ensures var dry := Dry(cstream.dry, dstream.dry, estream.dry);
      var s := Step(src, size, dry, old(Playing(cstream.rest, dstream.rest, estream.rest, oldpos, data[..newpos])));
      && r.Ok? == s.Ok? && r.Failed? == s.Failed? && r.Hangs? == s.Hangs?
      && (r.Ok? ==> newpos' <= size && s.value == Playing(cstream.rest, dstream.rest, estream.rest, oldpos',
          data[..newpos']))
  {
    hide Offtin;
    ghost var c, d, e, made := cstream.rest, dstream.rest, estream.rest, data[..newpos];
    oldpos', newpos' := oldpos, newpos;
    r := cstream.FillBuffer(buf, 0, 24);
    if !r.Ok? { return; }
    assert buf[..8] == c[..8] && buf[8..16] == c[8..16] && buf[16..24] == c[16..24];
    var x, y, z := Offtin(buf[..8]), Offtin(buf[8..16]), Offtin(buf[16..24]);
    if newpos + x > size { return Failed, oldpos, newpos; }
    r := dstream.FillBuffer(data, newpos, x);
    if !r.Ok? { return; }
    assert data[newpos..newpos+x] == d[..x];
    AddOld(src, oldpos, data, newpos, x);
    newpos' := newpos + x;
    if newpos' + y > size { return Failed, oldpos, newpos; }
    assert data[..newpos'] == made + Add(src, oldpos, d[..x]);
    r := estream.FillBuffer(data, newpos', y);
    if !r.Ok? { return; }
    newpos' := newpos' + y;
    oldpos' := oldpos + x + z;
    assert data[..newpos'] == made + Add(src, oldpos, d[..x]) + e[..y];
  }

  /** Lines 193-246: the replay loop. */
  method ReplayInto(src: seq<byte>, dry: Dry, p: Playing, size: nat, data: array<byte>) returns (r: Result<seq<byte>>)
    requires data.Length == size && p.oldpos == 0 && p.made == []
    modifies data
    ensures r == Replay(src, size, dry, p)
  {
    hide Step;
    var cstream := new Stream(p.ctrl, dry.ctrl);
    var dstream := new Stream(p.diff, dry.diff);
    var estream := new Stream(p.extra, dry.extra);
    var buf := new byte[24];
    var oldpos, newpos := 0, 0;
    assert data[..0] == [];
    while newpos < size
      invariant 0 <= newpos <= size
      invariant Replay(src, size, dry, p)
        == Replay(src, size, dry, Playing(cstream.rest, dstream.rest, estream.rest, oldpos, data[..newpos]))
      decreases |cstream.rest|
    {
      var played;
      played, oldpos, newpos := PlayTriple(src, cstream, dstream, estream, buf, data, size, oldpos, newpos);
      match played {
        case Ok(_) =>
        case Failed => return Failed;
        case Hangs => return Hangs;
        case Undefined => return Undefined;
      }
    }
    assert data[..newpos] == data[..];
    return Ok(data[..]);
  }

  /** ApplyBSDiffPatchMem computes the meaning of the patch, in all four ways in which it can end. */
  method ApplyBSDiffPatchMem(bz: Bzip, src: seq<byte>, patch: seq<byte>, offset: int) returns (r: Result<seq<byte>>)
    ensures r == Decode(bz, src, patch, offset)
  {
    hide Replay, Offtin;
    var header := ParseHeader(patch, offset);
    match header {
      case Ok(b) =>
        var data := new byte[b.size];
        r := ReplayInto(src, Starving(bz, b), Start(bz, b), b.size, data);
      case Failed => return Failed;
      case Hangs => return Hangs;
      case Undefined => return Undefined;
    }
  }
}
