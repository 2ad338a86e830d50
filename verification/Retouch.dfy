/**
 Retouch masking (minelf/Retouch.c): a randomised library carries a compressed list of its relocated
 words, and masking sets every one of them to its original value plus a uniform offset.
 */
module Retouch {
  import opened Bytes
  import opened BsPatch

  const WORD := 0x1_0000_0000

  /** uint32_t arithmetic. */
  function U32(x: int): (r: nat)
    ensures r < WORD
  {
    x % WORD
  }

  /** int32_t from a uint32_t. */
  function S32(x: int): (r: int)
    requires 0 <= x < WORD
    ensures -0x8000_0000 <= r < 0x8000_0000
  {
    if x < 0x8000_0000 then x else x - WORD
  }

  /** The little-endian word at `at`. */
  function Word(data: seq<byte>, at: nat): (r: nat)
    requires at + 4 <= |data|
    ensures r < WORD
  {
    ValueBound(data[at..at+4]);
    SpanFacts();
    Value(data[at..at+4])
  }

  function Put(data: seq<byte>, at: nat, v: nat): (r: seq<byte>)
    requires at + 4 <= |data|
    ensures |r| == |data|
  {
    data[..at] + Little(v, 4) + data[at+4..]
  }

  lemma WordPut(data: seq<byte>, at: nat, v: nat)
    requires at + 4 <= |data| && v < WORD
    ensures Word(Put(data, at, v), at) == v
    ensures forall i :: 0 <= i < |data| && !(at <= i < at + 4) ==> Put(data, at, v)[i] == data[i]
  {
    SpanFacts();
    ValueLittle(v, 4);
    assert Put(data, at, v)[at..at+4] == Little(v, 4);
  }

  // ----- the compressed list -----

  /**
   One decoded entry: where its word is, as the list says (-1: the prelink address), its original value,
   the next byte.
   */
  datatype Entry = Entry(offset: int, contents: nat, next: nat)

  /** decode_in_memory: 2-, 3- and 8-byte forms; the short ones are relative to the entry before. */
  function Decode(data: seq<byte>, pos: nat, offsPrev: int, contPrev: nat): (e: Entry)
    requires pos + 8 <= |data|
    ensures pos + 2 <= e.next <= pos + 8 && e.contents < WORD
  {
    var b0: int, b1: int, b2: int, b3: int := data[pos], data[pos+1], data[pos+2], data[pos+3];
    if b0 >= 0x80 then
      var tmp := b0 % 0x20 * 0x100 + b1;
      Entry(offsPrev + (b0 / 0x20 % 4 + 1) * 4, U32(contPrev + if tmp >= 0x1000 then tmp - 0x2000 else tmp), pos + 2)
    else if b0 >= 0x40 then
      var tmp := b0 % 0x10 * 0x1_0000 + b1 * 0x100 + b2;
      Entry(offsPrev + (b0 / 0x10 % 4 + 1) * 4, U32(contPrev + if tmp >= 0x8_0000 then tmp - 0x10_0000 else tmp),
        pos + 3)
    else
      var o := Big(b0, b1, b2, b3);
      Entry(if o == 0x3fff_ffff then -1 else o, Big(data[pos+4], data[pos+5], data[pos+6], data[pos+7]), pos + 8)
  }

  /** Four bytes, most significant first. */
  function Big(a: int, b: int, c: int, d: int): (r: nat)
    requires 0 <= a < 256 && 0 <= b < 256 && 0 <= c < 256 && 0 <= d < 256
    ensures r < WORD
  {
    a * 0x100_0000 + b * 0x1_0000 + c * 0x100 + d
  }

  // ----- retouch_mask_data -----

  datatype Status = ERROR | MATCHED | MISMATCHED | NOTAPPLICABLE

  datatype Outcome = Outcome(data: seq<byte>, status: Status, offset: int)

  const PRELINK_SIZE: nat := 8
  const INFO_SIZE: nat := 12
  const PRE_TAG: seq<byte> := [0x50, 0x52, 0x45, 0x20]
  const RETOUCH_TAG: seq<byte> := [0x52, 0x45, 0x54, 0x4f, 0x55, 0x43, 0x48, 0x20]

  /** Where the word of an entry is. */
  function Place(r: nat, offset: int): (at: int) {
    if offset == -1 then r + INFO_SIZE else offset
  }

  /** The loop from byte `pos` of the blob `b..r-1`; `seen` is the offset inferred from the entries so far. */
  function Walk(data: seq<byte>, b: nat, r: nat, pos: nat, offsPrev: int, contPrev: nat,
                desired: Option<int>, seen: Option<int>, mismatch: bool): (o: Outcome)
    requires b <= r && |data| == r + INFO_SIZE + PRELINK_SIZE
    decreases r - pos
  {
    var target := if desired.Some? then desired.value else 0;
    if pos > r then Outcome(data, ERROR, target)
    else if pos == r then
      if mismatch then Outcome(data, MISMATCHED, target)
      else Outcome(data, MATCHED, if seen.Some? then seen.value else target)
    else
      var e := Decode(data, pos, offsPrev, contPrev);
      if e.offset < -1 || e.offset >= b then Outcome(data, ERROR, target)
      else
        var at := Place(r, e.offset);
        var data' := if desired.Some? then Put(data, at, U32(e.contents + target)) else data;
        var this_ := S32(U32(Word(data', at) - e.contents));
        Walk(data', b, r, e.next, e.offset, e.contents, desired,
             if seen.Some? then seen else Some(this_), mismatch || (seen.Some? && seen.value != this_))
  }

  /** The whole function. */
  function MaskData(data: seq<byte>, desired: Option<int>): (o: Outcome) {
    var target := if desired.Some? then desired.value else 0;
    var untouched := Outcome(data, if desired.Some? then MATCHED else NOTAPPLICABLE, target);
    if |data| < PRELINK_SIZE + INFO_SIZE then untouched
    else
      var p := |data| - PRELINK_SIZE;
      var r := p - INFO_SIZE;
      if data[p+4..p+8] != PRE_TAG || data[r..r+8] != RETOUCH_TAG then untouched
      else
        var b := S32(U32(r - Word(data, r + 8)));
        if b < 0 || b > r then Outcome(data, ERROR, target)
        else Walk(data, b, r, b, 0, 0, desired, None, false)
  }

  method PutWord(binary: array<byte>, at: nat, v: nat)
    requires at + 4 <= binary.Length
    modifies binary
    ensures binary[..] == Put(old(binary[..]), at, v)
  {
    var w := Little(v, 4);
    forall i | 0 <= i < 4 {
      binary[at+i] := w[i];
    }
  }

  /** The loop of lines 147-186. */
  method WalkBlob(binary: array<byte>, b: nat, r: nat, desired: Option<int>) returns (status: Status, offset: int)
    requires b <= r && binary.Length == r + INFO_SIZE + PRELINK_SIZE
    modifies binary
    ensures Outcome(binary[..], status, offset) == Walk(old(binary[..]), b, r, b, 0, 0, desired, None, false)
  {
    hide Decode, Word, Put, U32, S32;
    var target := if desired.Some? then desired.value else 0;
    var pos, offsPrev, contPrev := b, 0, 0;
    var seen: Option<int>, mismatch := None, false;
    while pos < r
      invariant b <= pos
      invariant Walk(old(binary[..]), b, r, b, 0, 0, desired, None, false)
        == Walk(binary[..], b, r, pos, offsPrev, contPrev, desired, seen, mismatch)
      decreases r - pos
    {
      var e := Decode(binary[..], pos, offsPrev, contPrev);
      if e.offset < -1 || e.offset >= b {
        return ERROR, target;
      }
      var at := Place(r, e.offset);
      if desired.Some? {
        PutWord(binary, at, U32(e.contents + target));
      }
      var this_ := S32(U32(Word(binary[..], at) - e.contents));
      if seen.None? {
        seen := Some(this_);
      } else if seen.value != this_ {
        mismatch := true;
      }
      pos, offsPrev, contPrev := e.next, e.offset, e.contents;
    }
    if pos > r {
      return ERROR, target;
    }
    if mismatch {
      return MISMATCHED, target;
    }
    return MATCHED, if seen.Some? then seen.value else target;
  }

  method RetouchMaskData(binary: array<byte>, desired: Option<int>) returns (status: Status, offset: int)
    requires binary.Length < 0x8000_0000
    modifies binary
    ensures Outcome(binary[..], status, offset) == MaskData(old(binary[..]), desired)
  {
    hide Walk, Word, U32, S32;
    var target := if desired.Some? then desired.value else 0;
    var r := binary.Length - PRELINK_SIZE - INFO_SIZE;
    if r < 0 {
      return if desired.Some? then MATCHED else NOTAPPLICABLE, target;
    }
    var p := r + INFO_SIZE;
    assert binary[..][p+4..p+8] == binary[p+4..p+8] && binary[..][r..r+8] == binary[r..r+8];
    if binary[p+4..p+8] != PRE_TAG || binary[r..r+8] != RETOUCH_TAG {
      return if desired.Some? then MATCHED else NOTAPPLICABLE, target;
    }
    var b := S32(U32(r - Word(binary[..], r + 8)));
    if b < 0 || b > r {
      return ERROR, target;
    }
    status, offset := WalkBlob(binary, b, r, desired);
  }

  // ----- well-formed lists -----

  /** An entry with the place of its word resolved. */
  datatype Fix = Fix(at: nat, contents: nat)

  /** The list from `pos` on, if it is complete and every word lies outside the blob and the tags. */
  ghost function Fixes(data: seq<byte>, b: nat, r: nat, pos: nat, offsPrev: int, contPrev: nat): (f: Option<seq<Fix>>)
    requires b <= r && |data| == r + INFO_SIZE + PRELINK_SIZE
    decreases r - pos
  {
    if pos > r then None
    else if pos == r then Some([])
    else
      var e := Decode(data, pos, offsPrev, contPrev);
      if e.offset < -1 || (e.offset >= 0 && e.offset + 4 > b) then None
      else
        var rest := Fixes(data, b, r, e.next, e.offset, e.contents);
        if rest.None? then None else Some([Fix(Place(r, e.offset), e.contents)] + rest.value)
  }

  /** Words lie below the blob or are the prelink address; in any case inside the data. */
  ghost predicate Clear(fs: seq<Fix>, b: nat, r: nat) {
    forall i :: 0 <= i < |fs| ==> fs[i].contents < WORD && (fs[i].at + 4 <= b || fs[i].at == r + INFO_SIZE)
  }

  lemma {:induction false} FixesClear(data: seq<byte>, b: nat, r: nat, pos: nat, offsPrev: int, contPrev: nat)
    requires b <= r && |data| == r + INFO_SIZE + PRELINK_SIZE
    ensures var f := Fixes(data, b, r, pos, offsPrev, contPrev); f.Some? ==> Clear(f.value, b, r)
    decreases r - pos
  {
    hide Decode;
    if pos < r {
      var e := Decode(data, pos, offsPrev, contPrev);
      FixesClear(data, b, r, e.next, e.offset, e.contents);
    }
  }

  /** Every word set to its original value plus `d`, in list order. */
  ghost function Masked(data: seq<byte>, fs: seq<Fix>, d: int): (r: seq<byte>)
    requires forall i :: 0 <= i < |fs| ==> fs[i].at + 4 <= |data|
    ensures |r| == |data|
    decreases |fs|
  {
    if fs == [] then data else Masked(Put(data, fs[0].at, U32(fs[0].contents + d)), fs[1..], d)
  }

  /** The byte at `k` after masking, when it was `x` before. */
  ghost function Final(fs: seq<Fix>, d: int, k: nat, x: byte): byte
    decreases |fs|
  {
    if fs == [] then x
    else Final(fs[1..], d, k, if fs[0].at <= k < fs[0].at + 4 then Little(U32(fs[0].contents + d), 4)[k-fs[0].at]
        else x)
  }

  ghost predicate Covers(fs: seq<Fix>, k: nat) {
    exists i :: 0 <= i < |fs| && fs[i].at <= k < fs[i].at + 4
  }

  lemma {:induction false} MaskedAt(data: seq<byte>, fs: seq<Fix>, d: int, k: nat)
    requires forall i :: 0 <= i < |fs| ==> fs[i].at + 4 <= |data|
    requires k < |data|
    ensures Masked(data, fs, d)[k] == Final(fs, d, k, data[k])
    decreases |fs|
  {
    if fs != [] {
      MaskedAt(Put(data, fs[0].at, U32(fs[0].contents + d)), fs[1..], d, k);
    }
  }

  /** A covered byte is determined by the list alone; any other byte is left alone. */
  lemma {:induction false} FinalFacts(fs: seq<Fix>, d: int, k: nat, x: byte, y: byte)
    ensures Covers(fs, k) ==> Final(fs, d, k, x) == Final(fs, d, k, y)
    ensures !Covers(fs, k) ==> Final(fs, d, k, x) == x
    decreases |fs|
  {
    if fs != [] {
      var hit := fs[0].at <= k < fs[0].at + 4;
      var w := Little(U32(fs[0].contents + d), 4);
      var tail := fs[1..];
      assert Covers(fs, k) <==> hit || Covers(tail, k) by {
        if i :| 0 <= i < |fs| && fs[i].at <= k < fs[i].at + 4 {
          if i > 0 { assert tail[i-1] == fs[i]; }
        }
        if i :| 0 <= i < |tail| && tail[i].at <= k < tail[i].at + 4 {
          assert fs[i+1] == tail[i];
        }
      }
      FinalFacts(tail, d, k, if hit then w[k-fs[0].at] else x, if hit then w[k-fs[0].at] else y);
    }
  }

  /** Masking at `d` and then at `e` is masking at `e`. */
  lemma MaskedTwice(data: seq<byte>, fs: seq<Fix>, d: int, e: int)
    requires forall i :: 0 <= i < |fs| ==> fs[i].at + 4 <= |data|
    ensures Masked(Masked(data, fs, d), fs, e) == Masked(data, fs, e)
  {
    var once := Masked(data, fs, d);
    forall k | 0 <= k < |data|
      ensures Masked(once, fs, e)[k] == Masked(data, fs, e)[k]
    {
      MaskedAt(once, fs, e, k);
      MaskedAt(data, fs, e, k);
      MaskedAt(data, fs, d, k);
      FinalFacts(fs, e, k, once[k], data[k]);
      FinalFacts(fs, d, k, data[k], data[k]);
    }
  }

  // ----- masking does not disturb its own list -----

  /** Equal outside the words: blob, both tags and the blob size. */
  ghost predicate SameFrame(x: seq<byte>, y: seq<byte>, b: nat, r: nat) {
    && |x| == |y| == r + INFO_SIZE + PRELINK_SIZE && b <= r
    && (forall k :: b <= k < r + INFO_SIZE ==> x[k] == y[k])
    && (forall k :: r + INFO_SIZE + 4 <= k < |x| ==> x[k] == y[k])
  }

  lemma DecodeSame(x: seq<byte>, y: seq<byte>, b: nat, r: nat, pos: nat, offsPrev: int, contPrev: nat)
    requires SameFrame(x, y, b, r) && b <= pos < r
    ensures Decode(x, pos, offsPrev, contPrev) == Decode(y, pos, offsPrev, contPrev)
  {
    assert x[pos] == y[pos] && x[pos+1] == y[pos+1] && x[pos+2] == y[pos+2] && x[pos+3] == y[pos+3];
    assert x[pos+4] == y[pos+4] && x[pos+5] == y[pos+5] && x[pos+6] == y[pos+6] && x[pos+7] == y[pos+7];
  }

  lemma {:induction false} FixesSame(x: seq<byte>, y: seq<byte>, b: nat, r: nat, pos: nat, offsPrev: int, contPrev: nat)
    requires SameFrame(x, y, b, r) && b <= pos
    ensures Fixes(x, b, r, pos, offsPrev, contPrev) == Fixes(y, b, r, pos, offsPrev, contPrev)
    decreases r - pos
  {
    hide Decode;
    if pos < r {
      DecodeSame(x, y, b, r, pos, offsPrev, contPrev);
      var e := Decode(x, pos, offsPrev, contPrev);
      FixesSame(x, y, b, r, e.next, e.offset, e.contents);
    }
  }

  lemma PutSame(x: seq<byte>, b: nat, r: nat, at: nat, v: nat)
    requires b <= r && |x| == r + INFO_SIZE + PRELINK_SIZE && (at + 4 <= b || at == r + INFO_SIZE)
    ensures SameFrame(x, Put(x, at, v), b, r)
  {
  }

  lemma MaskedSame(x: seq<byte>, fs: seq<Fix>, d: int, b: nat, r: nat)
    requires b <= r && |x| == r + INFO_SIZE + PRELINK_SIZE && Clear(fs, b, r)
    ensures SameFrame(x, Masked(x, fs, d), b, r)
  {
    forall k | b <= k < |x| && !(r + INFO_SIZE <= k < r + INFO_SIZE + 4)
      ensures x[k] == Masked(x, fs, d)[k]
    {
      MaskedAt(x, fs, d, k);
      FinalFacts(fs, d, k, x[k], x[k]);
    }
  }

  /** A 32-bit offset is recovered from a value and the original, wrap-around included. */
  lemma OffsetRecovered(c: nat, d: int)
    requires c < WORD && -0x8000_0000 <= d < 0x8000_0000
    ensures S32(U32(U32(c + d) - c)) == d
  {
    if c + d < 0 {
      assert U32(c + d) == c + d + WORD;
    } else if c + d >= WORD {
      assert U32(c + d) == c + d - WORD;
    }
    if d < 0 {
      assert U32(d) == d + WORD;
      assert U32(d + WORD) == d + WORD;
      assert U32(d - WORD) == d + WORD;
    } else {
      assert U32(d) == d;
    }
  }

  /** With a desired offset the loop writes every word and reports a match. */
  lemma {:induction false} WalkMasks(data: seq<byte>, b: nat, r: nat, pos: nat, offsPrev: int, contPrev: nat, d: int,
                                     seen: Option<int>)
    requires b <= r && |data| == r + INFO_SIZE + PRELINK_SIZE && b <= pos && -0x8000_0000 <= d < 0x8000_0000
    requires Fixes(data, b, r, pos, offsPrev, contPrev).Some? && (seen.None? || seen == Some(d))
    ensures var fs := Fixes(data, b, r, pos, offsPrev, contPrev).value;
      Clear(fs, b, r) && Walk(data, b, r, pos, offsPrev, contPrev, Some(d), seen, false)
        == Outcome(Masked(data, fs, d), MATCHED, d)
    decreases r - pos
  {
    hide Decode, U32, S32, Put, Word;
    FixesClear(data, b, r, pos, offsPrev, contPrev);
    if pos < r {
      var e := Decode(data, pos, offsPrev, contPrev);
      var at := Place(r, e.offset);
      var v := U32(e.contents + d);
      var data' := Put(data, at, v);
      WordPut(data, at, v);
      OffsetRecovered(e.contents, d);
      PutSame(data, b, r, at, v);
      FixesSame(data, data', b, r, e.next, e.offset, e.contents);
      WalkMasks(data', b, r, e.next, e.offset, e.contents, d, Some(d));
      var fs := Fixes(data, b, r, pos, offsPrev, contPrev).value;
      assert fs[1..] == Fixes(data, b, r, e.next, e.offset, e.contents).value;
    }
  }

  // ----- the results -----

  /** The blob of a retouched file starts here. */
  function BlobStart(data: seq<byte>): int
    requires |data| >= PRELINK_SIZE + INFO_SIZE
  {
    var r := |data| - PRELINK_SIZE - INFO_SIZE;
    S32(U32(r - Word(data, r + 8)))
  }

  /** A retouched file with a complete list whose words are all outside the list and the tags. */
  ghost predicate WellFormed(data: seq<byte>) {
    && PRELINK_SIZE + INFO_SIZE <= |data|
    && var p := |data| - PRELINK_SIZE;
      var r := p - INFO_SIZE;
      && data[p+4..p+8] == PRE_TAG && data[r..r+8] == RETOUCH_TAG
      && 0 <= BlobStart(data) <= r && Fixes(data, BlobStart(data), r, BlobStart(data), 0, 0).Some?
  }

  ghost function List(data: seq<byte>): (fs: seq<Fix>)
    requires WellFormed(data)
    ensures Clear(fs, BlobStart(data), |data| - PRELINK_SIZE - INFO_SIZE)
    ensures forall i :: 0 <= i < |fs| ==> fs[i].at + 4 <= |data|
  {
    var b, r := BlobStart(data), |data| - PRELINK_SIZE - INFO_SIZE;
    FixesClear(data, b, r, b, 0, 0);
    Fixes(data, b, r, b, 0, 0).value
  }

  /** Masking at `d` sets exactly the listed words, reports a match and returns `d`. */
  lemma MaskWrites(data: seq<byte>, d: int)
    requires WellFormed(data) && -0x8000_0000 <= d < 0x8000_0000
    ensures MaskData(data, Some(d)) == Outcome(Masked(data, List(data), d), MATCHED, d)
  {
    hide Walk, Fixes, Word;
    var b, r := BlobStart(data), |data| - PRELINK_SIZE - INFO_SIZE;
    WalkMasks(data, b, r, b, 0, 0, d, None);
  }

  /** The masked file has the same list. */
  lemma MaskedWellFormed(data: seq<byte>, d: int)
    requires WellFormed(data)
    ensures var m := Masked(data, List(data), d); WellFormed(m) && List(m) == List(data)
  {
    hide Fixes, Masked, Word;
    var b, r := BlobStart(data), |data| - PRELINK_SIZE - INFO_SIZE;
    var m := Masked(data, List(data), d);
    MaskedSame(data, List(data), d, b, r);
    FixesSame(data, m, b, r, b, 0, 0);
    assert m[r+16..r+20] == data[r+16..r+20] && m[r..r+8] == data[r..r+8] && m[r+8..r+12] == data[r+8..r+12];
    WordSame(data, m, r + 8);
  }

  lemma WordSame(x: seq<byte>, y: seq<byte>, at: nat)
    requires at + 4 <= |x| && at + 4 <= |y| && x[at..at+4] == y[at..at+4]
    ensures Word(x, at) == Word(y, at)
  {
  }

  /** Masking is canonical: whatever offset the file had, masking at `e` gives the same bytes. */
  lemma MaskCanonical(data: seq<byte>, d: int, e: int)
    requires WellFormed(data) && -0x8000_0000 <= d < 0x8000_0000 && -0x8000_0000 <= e < 0x8000_0000
    ensures MaskData(MaskData(data, Some(d)).data, Some(e)) == MaskData(data, Some(e))
  {
    hide MaskData, WellFormed;
    MaskWrites(data, d);
    MaskWrites(data, e);
    MaskedWellFormed(data, d);
    MaskWrites(Masked(data, List(data), d), e);
    MaskedTwice(data, List(data), d, e);
  }

  /** Every listed word holds its original value plus `d`. */
  ghost predicate ReadsBack(data: seq<byte>, fs: seq<Fix>, d: int) {
    forall i :: 0 <= i < |fs| ==> fs[i].at + 4 <= |data| && Word(data, fs[i].at) == U32(fs[i].contents + d)
  }

  lemma ReadsBackCons(data: seq<byte>, fs: seq<Fix>, d: int)
    requires fs != [] && fs[0].at + 4 <= |data|
    ensures ReadsBack(data, fs, d) <==> Word(data, fs[0].at) == U32(fs[0].contents + d) && ReadsBack(data, fs[1..], d)
  {
    var rest := fs[1..];
    assert forall i :: 0 <= i < |rest| ==> rest[i] == fs[i+1];
  }

  lemma ReadsBackNone(data: seq<byte>, d: int)
    ensures ReadsBack(data, [], d)
  {
  }

  /** Without a desired offset the loop writes nothing, and matches exactly when all words agree on one offset. */
  lemma {:induction false} WalkInfers(data: seq<byte>, b: nat, r: nat, pos: nat, offsPrev: int, contPrev: nat, d: int)
    requires b <= r && |data| == r + INFO_SIZE + PRELINK_SIZE && b <= pos && -0x8000_0000 <= d < 0x8000_0000
    requires Fixes(data, b, r, pos, offsPrev, contPrev).Some?
    ensures var fs := Fixes(data, b, r, pos, offsPrev, contPrev).value;
      var o := Walk(data, b, r, pos, offsPrev, contPrev, None, Some(d), false);
      if ReadsBack(data, fs, d) then o == Outcome(data, MATCHED, d) else o == Outcome(data, MISMATCHED, 0)
    decreases r - pos
  {
    hide Decode, U32, S32, Word, ReadsBack;
    ReadsBackNone(data, d);
    FixesClear(data, b, r, pos, offsPrev, contPrev);
    if pos < r {
      var e := Decode(data, pos, offsPrev, contPrev);
      var at := Place(r, e.offset);
      var rest := Fixes(data, b, r, e.next, e.offset, e.contents).value;
      var fs := Fixes(data, b, r, pos, offsPrev, contPrev).value;
      assert fs[0] == Fix(at, e.contents) && fs[1..] == rest;
      ReadsBackCons(data, fs, d);
      OffsetExact(e.contents, Word(data, at), d);
      if Word(data, at) == U32(e.contents + d) {
        WalkInfers(data, b, r, e.next, e.offset, e.contents, d);
      } else {
        WalkMismatched(data, b, r, e.next, e.offset, e.contents, Some(d));
      }
    }
  }

  lemma OffsetExact(c: nat, w: nat, d: int)
    requires c < WORD && w < WORD && -0x8000_0000 <= d < 0x8000_0000
    ensures S32(U32(w - c)) == d <==> w == U32(c + d)
  {
    OffsetRecovered(c, d);
    if w >= c {
      assert U32(w - c) == w - c;
    } else {
      assert U32(w - c) == w - c + WORD;
    }
    if c + d < 0 {
      assert U32(c + d) == c + d + WORD;
    } else if c + d >= WORD {
      assert U32(c + d) == c + d - WORD;
    } else {
      assert U32(c + d) == c + d;
    }
  }

  lemma {:induction false} WalkMismatched(data: seq<byte>, b: nat, r: nat, pos: nat, offsPrev: int, contPrev: nat,
                                          seen: Option<int>)
    requires b <= r && |data| == r + INFO_SIZE + PRELINK_SIZE && b <= pos && seen.Some?
    requires Fixes(data, b, r, pos, offsPrev, contPrev).Some?
    ensures Walk(data, b, r, pos, offsPrev, contPrev, None, seen, true) == Outcome(data, MISMATCHED, 0)
    decreases r - pos
  {
    hide Decode, U32, S32, Word;
    if pos < r {
      var e := Decode(data, pos, offsPrev, contPrev);
      WalkMismatched(data, b, r, e.next, e.offset, e.contents, seen);
    }
  }

  /** The first entry only fixes the offset that the others are compared with. */
  lemma WalkFirst(data: seq<byte>, b: nat, r: nat, d: int)
    requires b < r && |data| == r + INFO_SIZE + PRELINK_SIZE && -0x8000_0000 <= d < 0x8000_0000
    requires Fixes(data, b, r, b, 0, 0).Some?
    ensures Walk(data, b, r, b, 0, 0, None, None, false) == Outcome(data, MATCHED, d)
        <==> ReadsBack(data, Fixes(data, b, r, b, 0, 0).value, d)
  {
    hide Word, U32, S32, Decode, ReadsBack;
    FixesClear(data, b, r, b, 0, 0);
    var e := Decode(data, b, 0, 0);
    var at := Place(r, e.offset);
    var rest := Fixes(data, b, r, e.next, e.offset, e.contents).value;
    var fs := Fixes(data, b, r, b, 0, 0).value;
    assert fs[0] == Fix(at, e.contents) && fs[1..] == rest;
    var first := S32(U32(Word(data, at) - e.contents));
    OffsetExact(e.contents, Word(data, at), d);
    ReadsBackCons(data, fs, d);
    WalkInfers(data, b, r, e.next, e.offset, e.contents, first);
  }

  /** Inference on any well-formed file: a match, with offset `d`, exactly when every word reads back shifted by `d`. */
  lemma InferExactly(data: seq<byte>, d: int)
    requires WellFormed(data) && List(data) != [] && -0x8000_0000 <= d < 0x8000_0000
    ensures MaskData(data, None) == Outcome(data, MATCHED, d) <==> ReadsBack(data, List(data), d)
  {
    var b, r := BlobStart(data), |data| - PRELINK_SIZE - INFO_SIZE;
    assert b < r;
    hide Word, U32, S32, Walk, Fixes, ReadsBack;
    WalkFirst(data, b, r, d);
  }

  /** No two listed words overlap. */
  ghost predicate Disjoint(fs: seq<Fix>) {
    forall i, j :: 0 <= i < j < |fs| ==> fs[i].at + 4 <= fs[j].at || fs[j].at + 4 <= fs[i].at
  }

  lemma {:induction false} FinalDisjoint(fs: seq<Fix>, d: int, i: nat, k: nat, x: byte)
    requires i < |fs| && Disjoint(fs) && fs[i].at <= k < fs[i].at + 4
    ensures Final(fs, d, k, x) == Little(U32(fs[i].contents + d), 4)[k-fs[i].at]
    decreases |fs|
  {
    var y := if fs[0].at <= k < fs[0].at + 4 then Little(U32(fs[0].contents + d), 4)[k-fs[0].at] else x;
    assert Disjoint(fs[1..]);
    if i == 0 {
      assert !Covers(fs[1..], k);
      FinalFacts(fs[1..], d, k, y, y);
    } else {
      FinalDisjoint(fs[1..], d, i - 1, k, y);
    }
  }

  lemma MaskedReadsBack(data: seq<byte>, fs: seq<Fix>, d: int)
    requires Disjoint(fs) && forall i :: 0 <= i < |fs| ==> fs[i].at + 4 <= |data|
    ensures ReadsBack(Masked(data, fs, d), fs, d)
  {
    hide Disjoint, Masked, Final, U32, Value, Little;
    var m := Masked(data, fs, d);
    forall i | 0 <= i < |fs|
      ensures Word(m, fs[i].at) == U32(fs[i].contents + d)
    {
      var at, w := fs[i].at, Little(U32(fs[i].contents + d), 4);
      forall k | at <= k < at + 4
        ensures m[k] == w[k-at]
      {
        MaskedAt(data, fs, d, k);
        FinalDisjoint(fs, d, i, k, data[k]);
      }
      assert m[at..at+4] == w;
      SpanFacts();
      ValueLittle(U32(fs[i].contents + d), 4);
    }
  }

  /** With at least one entry and no overlapping words, inference finds the offset that masking used. */
  lemma InferenceFindsMask(data: seq<byte>, d: int)
    requires WellFormed(data) && List(data) != [] && Disjoint(List(data)) && -0x8000_0000 <= d < 0x8000_0000
    ensures var m := MaskData(data, Some(d)).data; MaskData(m, None) == Outcome(m, MATCHED, d)
  {
    hide MaskData, WellFormed, Masked;
    MaskWrites(data, d);
    MaskedWellFormed(data, d);
    MaskedReadsBack(data, List(data), d);
    InferExactly(Masked(data, List(data), d), d);
  }

  // ----- the encoding -----

  /**
   What a list can say about its next word: where it is (-1: the prelink address) and what it held, or how far
   behind the word before it is, in words, and the difference of the contents.
   */
  datatype Item = Far(offset: int, contents: nat) | Near(step: nat, delta: int) | Middle(step: nat, delta: int)

  predicate Sayable(x: Item) {
    match x
    case Far(offset, contents) => -1 <= offset < 0x3fff_ffff && contents < WORD
    case Near(step, delta) => 1 <= step <= 4 && -0x1000 <= delta < 0x1000
    case Middle(step, delta) => 1 <= step <= 4 && -0x8_0000 <= delta < 0x8_0000
  }

  /** Eight bytes, or two with a 13-bit difference, or three with a 20-bit difference, in two's complement. */
  function Code(x: Item): (s: seq<byte>)
    requires Sayable(x)
    ensures 2 <= |s| <= 8
  {
    match x
    case Far(offset, contents) => BigEndian(if offset == -1 then 0x3fff_ffff else offset) + BigEndian(contents)
    case Near(step, delta) =>
      var u := if delta < 0 then delta + 0x2000 else delta;
      [0x80 + (step - 1) * 0x20 + u / 0x100, u % 0x100]
    case Middle(step, delta) =>
      var u := if delta < 0 then delta + 0x10_0000 else delta;
      [0x40 + (step - 1) * 0x10 + u / 0x1_0000, u / 0x100 % 0x100, u % 0x100]
  }

  function BigEndian(v: nat): (s: seq<byte>)
    requires v < WORD
    ensures |s| == 4
  {
    var high, low := v / 0x1_0000, v % 0x1_0000;
    [high / 0x100, high % 0x100, low / 0x100, low % 0x100]
  }

  /** The word that the item is about, behind a word at `offsPrev` that held `contPrev`. */
  function Meant(x: Item, offsPrev: int, contPrev: nat): (r: (int, nat)) {
    match x
    case Far(offset, contents) => (offset, contents)
    case Near(step, delta) => (offsPrev + 4 * step, (contPrev + delta) % WORD)
    case Middle(step, delta) => (offsPrev + 4 * step, (contPrev + delta) % WORD)
  }

  predicate StartsAt(data: seq<byte>, pos: nat, s: seq<byte>) {
    pos + |s| <= |data| && data[pos..pos+|s|] == s
  }

  lemma StartBytes(data: seq<byte>, pos: nat, s: seq<byte>)
    requires StartsAt(data, pos, s)
    ensures forall i :: 0 <= i < |s| ==> data[pos+i] == s[i]
  {
    forall i | 0 <= i < |s|
      ensures data[pos+i] == s[i]
    {
      assert data[pos..pos+|s|][i] == data[pos+i];
    }
  }

  lemma BigValue(v: nat)
    requires v < WORD
    ensures var s := BigEndian(v); Big(s[0], s[1], s[2], s[3]) == v
    ensures v < 0x4000_0000 ==> BigEndian(v)[0] < 0x40
  {
    var high, low := v / 0x1_0000, v % 0x1_0000;
    assert high / 0x100 * 0x100 + high % 0x100 == high && low / 0x100 * 0x100 + low % 0x100 == low;
  }

  lemma NearDecoded(data: seq<byte>, pos: nat, x: Item, offsPrev: int, contPrev: nat)
    requires Sayable(x) && x.Near? && pos + 8 <= |data| && StartsAt(data, pos, Code(x))
    ensures Decode(data, pos, offsPrev, contPrev)
      == Entry(offsPrev + 4 * x.step, (contPrev + x.delta) % WORD, pos + 2)
  {
    StartBytes(data, pos, Code(x));
    var u := if x.delta < 0 then x.delta + 0x2000 else x.delta;
    var b0: int, b1: int := data[pos], data[pos+1];
    assert b0 == 0x20 * (4 + x.step - 1) + u / 0x100 && b1 == u % 0x100;
    assert b0 % 0x20 == u / 0x100 && b0 / 0x20 % 4 == x.step - 1;
    assert b0 % 0x20 * 0x100 + b1 == u;
  }

  lemma MiddleDecoded(data: seq<byte>, pos: nat, x: Item, offsPrev: int, contPrev: nat)
    requires Sayable(x) && x.Middle? && pos + 8 <= |data| && StartsAt(data, pos, Code(x))
    ensures Decode(data, pos, offsPrev, contPrev)
      == Entry(offsPrev + 4 * x.step, (contPrev + x.delta) % WORD, pos + 3)
  {
    StartBytes(data, pos, Code(x));
    var u := if x.delta < 0 then x.delta + 0x10_0000 else x.delta;
    MiddleValue(x.step, u);
  }

  lemma MiddleValue(step: nat, u: nat)
    requires 1 <= step <= 4 && u < 0x10_0000
    ensures var b0 := 0x40 + (step - 1) * 0x10 + u / 0x1_0000;
      && 0x40 <= b0 < 0x80 && b0 / 0x10 % 4 == step - 1
      && b0 % 0x10 * 0x1_0000 + u / 0x100 % 0x100 * 0x100 + u % 0x100 == u
  {
    assert 0x40 + (step - 1) * 0x10 + u / 0x1_0000 == 0x10 * (4 + step - 1) + u / 0x1_0000;
    assert u / 0x100 / 0x100 == u / 0x1_0000;
  }

  lemma FarDecoded(data: seq<byte>, pos: nat, x: Item, offsPrev: int, contPrev: nat)
    requires Sayable(x) && x.Far? && pos + 8 <= |data| && StartsAt(data, pos, Code(x))
    ensures Decode(data, pos, offsPrev, contPrev) == Entry(x.offset, x.contents, pos + 8)
  {
    hide BigEndian, Big, U32;
    StartBytes(data, pos, Code(x));
    var o := if x.offset == -1 then 0x3fff_ffff else x.offset;
    BigValue(o);
    BigValue(x.contents);
    var s, w := BigEndian(o), BigEndian(x.contents);
    assert forall i :: 0 <= i < 4 ==> Code(x)[i] == s[i];
    assert forall i :: 0 <= i < 4 ==> Code(x)[4+i] == w[i];
    assert data[pos] == s[0] && data[pos+1] == s[1] && data[pos+2] == s[2] && data[pos+3] == s[3];
    assert data[pos+4] == Code(x)[4+0] && data[pos+5] == Code(x)[4+1];
    assert data[pos+6] == Code(x)[4+2] && data[pos+7] == Code(x)[4+3];
  }

  /** Every item, in each of the three forms, is read back. */
  lemma DecodeCode(data: seq<byte>, pos: nat, x: Item, offsPrev: int, contPrev: nat)
    requires Sayable(x) && pos + 8 <= |data| && StartsAt(data, pos, Code(x))
    ensures var m := Meant(x, offsPrev, contPrev);
      Decode(data, pos, offsPrev, contPrev) == Entry(m.0, m.1, pos + |Code(x)|)
  {
    hide Decode, StartsAt;
    match x {
      case Far(_, _) => FarDecoded(data, pos, x, offsPrev, contPrev);
      case Near(_, _) => NearDecoded(data, pos, x, offsPrev, contPrev);
      case Middle(_, _) => MiddleDecoded(data, pos, x, offsPrev, contPrev);
    }
  }

  predicate AllSayable(xs: seq<Item>) {
    forall i :: 0 <= i < |xs| ==> Sayable(xs[i])
  }

  function Codes(xs: seq<Item>): (s: seq<byte>)
    requires AllSayable(xs)
  {
    if xs == [] then [] else Code(xs[0]) + Codes(xs[1..])
  }

  /** All words that a list is about, with what they held. */
  function AllMeant(xs: seq<Item>, offsPrev: int, contPrev: nat): (ws: seq<(int, nat)>)
    ensures |ws| == |xs|
  {
    if xs == [] then []
    else
      var m := Meant(xs[0], offsPrev, contPrev);
      [m] + AllMeant(xs[1..], m.0, m.1)
  }

  /** The words lie below `b` or are the prelink address. */
  predicate Below(ws: seq<(int, nat)>, b: nat) {
    forall i :: 0 <= i < |ws| ==> ws[i].0 == -1 || (0 <= ws[i].0 && ws[i].0 + 4 <= b)
  }

  function Fixed(ws: seq<(int, nat)>, r: nat): (fs: seq<Fix>)
    requires forall i :: 0 <= i < |ws| ==> -1 <= ws[i].0
    ensures |fs| == |ws|
  {
    seq(|ws|, i requires 0 <= i < |ws| => Fix(if ws[i].0 == -1 then r + INFO_SIZE else ws[i].0, ws[i].1))
  }

  lemma FixedCons(m: (int, nat), rest: seq<(int, nat)>, r: nat)
    requires m.0 >= -1 && forall i :: 0 <= i < |rest| ==> -1 <= rest[i].0
    ensures Fixed([m] + rest, r) == [Fix(Place(r, m.0), m.1)] + Fixed(rest, r)
  {
  }

  lemma CodesAt(data: seq<byte>, pos: nat, r: nat, xs: seq<Item>)
    requires pos <= r <= |data| && AllSayable(xs) && xs != [] && data[pos..r] == Codes(xs)
    ensures var c := Code(xs[0]); pos + |c| <= r && StartsAt(data, pos, c) && data[pos+|c|..r] == Codes(xs[1..])
  {
    hide Code;
    var c, s, rest := Code(xs[0]), Codes(xs), Codes(xs[1..]);
    assert s == c + rest;
    hide Codes;
    assert s[..|c|] == c && s[|c|..] == rest && |s| == r - pos;
    SubSlice(data, pos, |s|, 0, |c|);
    SubSlice(data, pos, |s|, |c|, |s|);
  }

  /** The encoding of any items, in any mix of forms, is read as exactly the words they are about. */
  lemma {:induction false} FixesCodes(data: seq<byte>, b: nat, r: nat, pos: nat, xs: seq<Item>, offsPrev: int,
                                      contPrev: nat)
    requires b <= pos <= r && |data| == r + INFO_SIZE + PRELINK_SIZE
    requires AllSayable(xs) && data[pos..r] == Codes(xs) && Below(AllMeant(xs, offsPrev, contPrev), b)
    ensures Fixes(data, b, r, pos, offsPrev, contPrev) == Some(Fixed(AllMeant(xs, offsPrev, contPrev), r))
    decreases |xs|
  {
    hide Decode, Code, Meant, Fixed, StartsAt, Place;
    if xs == [] {
      NoneFixed(r);
    } else {
      var m := Meant(xs[0], offsPrev, contPrev);
      var rest, next := AllMeant(xs[1..], m.0, m.1), pos + |Code(xs[0])|;
      CodesAt(data, pos, r, xs);
      DecodeCode(data, pos, xs[0], offsPrev, contPrev);
      hide Codes;
      BelowCons(m, rest, b);
      FixesCodes(data, b, r, next, xs[1..], m.0, m.1);
      FixedCons(m, rest, r);
    }
  }

  lemma NoneFixed(r: nat)
    ensures Fixed([], r) == []
  {
  }

  lemma BelowCons(m: (int, nat), rest: seq<(int, nat)>, b: nat)
    requires Below([m] + rest, b)
    ensures Below(rest, b) && (m.0 == -1 || (0 <= m.0 && m.0 + 4 <= b))
  {
    var ws := [m] + rest;
    assert ws[0] == m && forall i :: 0 <= i < |rest| ==> rest[i] == ws[i+1];
  }

  /** A retouched file: the words, the list, its tag and size, the prelink address and its tag. */
  function Retouched(words: seq<byte>, xs: seq<Item>, address: nat): (s: seq<byte>)
    requires AllSayable(xs) && address < WORD
  {
    words + (Codes(xs) + (RETOUCH_TAG + (Little(|Codes(xs)|, 4) + (Little(address, 4) + PRE_TAG))))
  }

  lemma RetouchedParts(words: seq<byte>, xs: seq<Item>, address: nat)
    requires AllSayable(xs) && address < WORD && |words| + |Codes(xs)| < 0x8000_0000
    ensures var x := Retouched(words, xs, address);
      var b := |words|;
      var r := b + |Codes(xs)|;
      && |x| == r + INFO_SIZE + PRELINK_SIZE && x[b..r] == Codes(xs) && Word(x, r + 8) == |Codes(xs)|
      && x[r..r+8] == RETOUCH_TAG && x[r+16..r+20] == PRE_TAG
  {
    hide Codes, Value, Little;
    var x := Retouched(words, xs, address);
    var r := |words| + |Codes(xs)|;
    SpanFacts();
    ValueLittle(|Codes(xs)|, 4);
    assert x[r+8..r+12] == Little(|Codes(xs)|, 4);
  }

  /** Such a file is well-formed, and its list is the one that was encoded. */
  lemma RetouchedList(words: seq<byte>, xs: seq<Item>, address: nat)
    requires AllSayable(xs) && address < WORD && |words| + |Codes(xs)| < 0x8000_0000
    requires Below(AllMeant(xs, 0, 0), |words|)
    ensures var x := Retouched(words, xs, address);
      WellFormed(x) && List(x) == Fixed(AllMeant(xs, 0, 0), |words| + |Codes(xs)|)
  {
    hide Retouched, Codes, Word, Fixes, Below, AllMeant;
    var x, b := Retouched(words, xs, address), |words|;
    var r := b + |Codes(xs)|;
    RetouchedParts(words, xs, address);
    assert U32(r - |Codes(xs)|) == b && S32(b) == b;
    assert BlobStart(x) == b;
    FixesCodes(x, b, r, b, xs, 0, 0);
  }

  /**
   Masking an encoded file at `d`: every listed word is what it held plus `d`, modulo 2^32, and no other byte
   changes.
   */
  lemma MaskEncoded(words: seq<byte>, xs: seq<Item>, address: nat, d: int)
    requires AllSayable(xs) && address < WORD && |words| + |Codes(xs)| < 0x8000_0000
    requires -0x8000_0000 <= d < 0x8000_0000
    requires Below(AllMeant(xs, 0, 0), |words|) && Disjoint(Fixed(AllMeant(xs, 0, 0), |words| + |Codes(xs)|))
    ensures var x, ws := Retouched(words, xs, address), AllMeant(xs, 0, 0);
      var fs, o := Fixed(ws, |words| + |Codes(xs)|), MaskData(x, Some(d));
      && o.status == MATCHED && o.offset == d && |o.data| == |x|
      && (forall i :: 0 <= i < |ws| ==> fs[i].at + 4 <= |x| && Word(o.data, fs[i].at) == (ws[i].1 + d) % WORD)
      && (forall k :: 0 <= k < |x| && !Covers(fs, k) ==> o.data[k] == x[k])
  {
    hide Retouched, Codes, Word, AllMeant, MaskData, WellFormed, Disjoint, Masked;
    var x, ws := Retouched(words, xs, address), AllMeant(xs, 0, 0);
    var fs := Fixed(ws, |words| + |Codes(xs)|);
    RetouchedList(words, xs, address);
    MaskWrites(x, d);
    MaskedReadsBack(x, fs, d);
    var m := Masked(x, fs, d);
    forall k | 0 <= k < |x| && !Covers(fs, k)
      ensures m[k] == x[k]
    {
      MaskedAt(x, fs, d, k);
      FinalFacts(fs, d, k, x[k], x[k]);
    }
  }
}
