/**
 The masking that applypatch really uses: LoadFileContents with RETOUCH_DO_MASK, which is retouch_mask_data at
 offset 0 and refuses everything but a match.
 */
module Masking {
  import opened Bytes
  import opened BsPatch
  import opened ImgPatch
  import opened ApplyPatch
  import opened Appliers
  import Retouch

  /** Lines 94-105 of applypatch.c. */
  function Mask(x: seq<byte>): (r: Option<seq<byte>>) {
    var o := Retouch.MaskData(x, Some(0));
    if o.status == Retouch.MATCHED then Some(o.data) else None
  }

  lemma {:induction false} WalkLength(data: seq<byte>, b: nat, r: nat, pos: nat, offsPrev: int, contPrev: nat,
                                      desired: Option<int>, seen: Option<int>, mismatch: bool)
    requires b <= r && |data| == r + Retouch.INFO_SIZE + Retouch.PRELINK_SIZE
    ensures |Retouch.Walk(data, b, r, pos, offsPrev, contPrev, desired, seen, mismatch).data| == |data|
    decreases r - pos
  {
    hide Retouch.Word, Retouch.U32, Retouch.S32, Retouch.Put, Retouch.Decode;
    if pos < r {
      var e := Retouch.Decode(data, pos, offsPrev, contPrev);
      if -1 <= e.offset < b {
        var target := if desired.Some? then desired.value else 0;
        var at := Retouch.Place(r, e.offset);
        var data' := if desired.Some? then Retouch.Put(data, at, Retouch.U32(e.contents + target)) else data;
        var this_ := Retouch.S32(Retouch.U32(Retouch.Word(data', at) - e.contents));
        WalkLength(data', b, r, e.next, e.offset, e.contents, desired,
                   if seen.Some? then seen else Some(this_), mismatch || (seen.Some? && seen.value != this_));
      }
    }
  }

  /** Masking is in place. */
  lemma MaskKeepsLength(x: seq<byte>)
    ensures Mask(x).Some? ==> |Mask(x).value| == |x|
  {
    hide Retouch.Walk, Retouch.Word, Retouch.U32, Retouch.S32;
    if |x| >= Retouch.PRELINK_SIZE + Retouch.INFO_SIZE {
      var r := |x| - Retouch.PRELINK_SIZE - Retouch.INFO_SIZE;
      var b := Retouch.BlobStart(x);
      if 0 <= b <= r {
        WalkLength(x, b, r, b, 0, 0, Some(0), None, false);
      }
    }
  }

  /** Left alone by masking, as files without tags are, or with a list whose words are outside list and tags. */
  ghost predicate Proper(x: seq<byte>) {
    Mask(x) == Some(x) || Retouch.WellFormed(x)
  }

  /** Masking a proper file twice is masking it once. */
  lemma MaskStable(x: seq<byte>)
    requires Proper(x) && Mask(x).Some?
    ensures Mask(Mask(x).value) == Mask(x)
  {
    hide Retouch.MaskData, Retouch.WellFormed;
    if Mask(x) != Some(x) {
      Retouch.MaskCanonical(x, 0, 0);
    }
  }

  /** A job with this masking whose sources are proper files can be interrupted: what it saves keeps. */
  lemma ProperStorable(j: Job)
    requires forall x: seq<byte> :: j.mask(x) == Mask(x)
    requires forall x: seq<byte> :: Mask(x).Some? && j.Taken(Mask(x).value) ==> Proper(x)
    ensures j.Storable()
  {
    hide Mask, Proper, Job.Source, Job.Target;
    forall x: seq<byte> | j.mask(x).Some? && j.Taken(j.mask(x).value)
      ensures j.Keeps(j.mask(x).value)
    {
      MaskStable(x);
    }
  }

  /**
   Updating one file by a delta: if masking leaves the old and the new contents alone and their digests are
   their own, what is saved keeps, and success means the new contents.
   */
  lemma PlainDelta(j: Job, bz: Bzip, z: Zlib, patchFor: seq<byte> -> seq<byte>, before: seq<byte>, after: seq<byte>)
    requires (forall x: seq<byte> :: j.mask(x) == Mask(x)) && Mask(before) == Some(before) && Mask(after) == Some(after)
    requires j.patches == {j.sha(before)} && forall x: seq<byte> :: j.sha(x) == j.sha(before) ==> x == before
    requires Unique(j, after) && Uses(j, bz, z, patchFor) && IsDelta(patchFor(before))
    ensures j.Storable() && j.Sound()
  {
    hide Mask, RunApplier, Job.Source, Job.Target;
    forall data: seq<byte>, hashed: seq<byte>, written: seq<byte> |
      j.Loadable(data) && j.applies(data, hashed, written) && j.sha(hashed) == j.targetSha
      ensures j.Accepts(written)
    {
      assert data == before;
      var results: seq<int>, rest: seq<int> :|
        RunApplier(bz, z, patchFor(data), data, results) == Ok(Work(ImgPatch.File(written, rest), hashed));
      DeltaReliable(j, bz, z, patchFor(data), data);
      ReliableHonest(j, bz, z, patchFor(data), data, results);
    }
  }

  // ----- a file that does not keep -----

  /** Four bytes and a list with one entry, for the word at 3: it reaches into the list, which begins at 4. */
  const BODY: seq<byte> := [0, 0, 0, 0, 0, 0, 0, 3, 0, 0, 0xff, 0]

  /** That, with the tags and the size of the list. */
  const IMPROPER: seq<byte> := BODY + (Retouch.RETOUCH_TAG + ([8, 0, 0, 0] + ([0, 0, 0, 0] + Retouch.PRE_TAG)))

  /** The same with the word written. */
  const MASKED: seq<byte> := IMPROPER[4 := 0xff]

  lemma EightInFour()
    ensures Value([8, 0, 0, 0]) == 8
  {
    var zero: seq<byte> := [0];
    assert zero[1..] == [] && Value([]) == 0 && Value(zero) == 0;
    var two: seq<byte> := [0, 0];
    assert two[1..] == zero && Value(two) == 0;
    var three: seq<byte> := [0, 0, 0];
    assert three[1..] == two && Value(three) == 0;
    var four: seq<byte> := [8, 0, 0, 0];
    assert four[1..] == three;
  }

  /** The tags, the size of the list and the list. */
  lemma Framed()
    ensures var x := IMPROPER;
      && |x| == 32 && x[28..32] == Retouch.PRE_TAG && x[12..20] == Retouch.RETOUCH_TAG && x[20..24] == [8, 0, 0, 0]
      && x[3] == x[4] == x[5] == x[6] == x[8] == x[9] == x[11] == 0 && x[7] == 3 && x[10] == 0xff
  {
  }

  /** A file with these tags and this size is walked from 4 on. */
  lemma Walked(x: seq<byte>)
    requires |x| == 32 && x[28..32] == Retouch.PRE_TAG && x[12..20] == Retouch.RETOUCH_TAG && x[20..24] == [8, 0, 0, 0]
    ensures Retouch.MaskData(x, Some(0)) == Retouch.Walk(x, 4, 12, 4, 0, 0, Some(0), None, false)
  {
    hide Retouch.Walk, Retouch.Word, Retouch.U32, Retouch.S32;
    SizeEight(x);
  }

  lemma SizeEight(x: seq<byte>)
    requires |x| == 32 && x[20..24] == [8, 0, 0, 0]
    ensures Retouch.S32(Retouch.U32(12 - Retouch.Word(x, 20))) == 4
  {
    hide Value;
    EightInFour();
    assert Retouch.Word(x, 20) == 8;
  }

  /** Masking destroys the list: the file is accepted, and what comes out is refused. */
  lemma ImproperFile()
    ensures Mask(IMPROPER) == Some(MASKED) && Mask(MASKED) == None
  {
    FirstMask();
    SecondMask();
  }

  lemma EntryWritten(x: seq<byte>)
    requires |x| == 32 && Retouch.Decode(x, 4, 0, 0) == Retouch.Entry(3, 0xff00, 12)
    ensures var y := Retouch.Put(x, 3, 0xff00);
      Retouch.Walk(x, 4, 12, 4, 0, 0, Some(0), None, false)
      == Retouch.Walk(y, 4, 12, 12, 3, 0xff00, Some(0), Some(0), false)
  {
    hide Retouch.Decode, Retouch.Put, Retouch.Word;
    Retouch.WordPut(x, 3, 0xff00);
    assert Retouch.U32(0xff00 + 0) == 0xff00 && Retouch.S32(Retouch.U32(0)) == 0;
  }

  lemma ListEnds(y: seq<byte>)
    requires |y| == 32
    ensures Retouch.Walk(y, 4, 12, 12, 3, 0xff00, Some(0), Some(0), false) == Retouch.Outcome(y, Retouch.MATCHED, 0)
  {
    hide Retouch.Decode, Retouch.Put, Retouch.Word;
  }

  lemma EntryRefused(x: seq<byte>)
    requires |x| == 32 && Retouch.Decode(x, 4, 0, 0).offset == 16
    ensures Retouch.Walk(x, 4, 12, 4, 0, 0, Some(0), None, false).status == Retouch.ERROR
  {
    hide Retouch.Decode, Retouch.Put, Retouch.Word;
  }

  lemma FirstMask()
    ensures Mask(IMPROPER) == Some(MASKED)
  {
    hide Retouch.MaskData, Retouch.Walk, Retouch.Put, Retouch.Word;
    var x := IMPROPER;
    Framed();
    hide IMPROPER;
    assert MASKED == x[4 := 0xff];
    Walked(x);
    assert Retouch.Decode(x, 4, 0, 0) == Retouch.Entry(3, 0xff00, 12);
    EntryWritten(x);
    WordWritten(x);
    ListEnds(MASKED);
  }

  lemma WordWritten(x: seq<byte>)
    requires |x| == 32 && x[3] == x[5] == x[6] == 0
    ensures Retouch.Put(x, 3, 0xff00) == x[4 := 0xff]
  {
    assert Little(0xff00, 4) == [0, 0xff, 0, 0] by {
      assert Little(0, 1) == [0] + Little(0, 0) && Little(0, 2) == [0] + Little(0, 1);
      assert Little(0xff, 3) == [0xff] + Little(0, 2);
      assert Little(0xff00, 4) == [0] + Little(0xff, 3);
    }
  }

  lemma SecondMask()
    ensures Mask(MASKED) == None
  {
    hide Retouch.MaskData, Retouch.Walk, Retouch.Put, Retouch.Word;
    Framed();
    hide IMPROPER;
    var x := MASKED;
    assert x[28..32] == IMPROPER[28..32] && x[12..20] == IMPROPER[12..20] && x[20..24] == IMPROPER[20..24];
    Walked(x);
    EntryRefused(x);
  }

  /** A job that patches that file is not storable: saving the source and removing it loses it. */
  lemma ImproperNotStorable(j: Job)
    requires (forall x: seq<byte> :: j.mask(x) == Mask(x)) && j.Taken(MASKED)
    ensures !j.Storable()
  {
    hide Mask, Job.Taken;
    ImproperFile();
    assert j.mask(IMPROPER) == Some(MASKED);
  }
}
