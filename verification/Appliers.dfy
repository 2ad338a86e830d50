/**
 The appliers of bspatch.c and imgpatch.c as applypatch uses them: on a file, with any behaviour of write().
 Which patches make success reliable, and which do not.
 */
module Appliers {
  import opened Bytes
  import opened BsPatch
  import opened BsDiff
  import opened ImgPatch
  import opened ImgParts
  import opened ImgFormat
  import opened ApplyPatch

  predicate IsDelta(patch: seq<byte>) {
    |patch| >= 8 && patch[..8] == MAGIC
  }

  predicate IsImage(patch: seq<byte>) {
    |patch| >= 8 && patch[..8] == IMGDIFF2
  }

  /** Lines 866-877 of applypatch.c: the header chooses the applier. */
  function RunApplier(bz: Bzip, z: Zlib, patch: seq<byte>, data: seq<byte>, results: seq<int>): (r: Result<Work>) {
    var w := Work(ImgPatch.File([], results), []);
    if IsDelta(patch) then ApplyDelta(bz, data, patch, 0, w)
    else if IsImage(patch) then ApplyImage(bz, z, data, patch, w)
    else Failed
  }

  /** Patching `data` can succeed with these bytes in the digest and those in the file. */
  ghost predicate Succeeds(bz: Bzip, z: Zlib, patch: seq<byte>, data: seq<byte>, hashed: seq<byte>,
                           written: seq<byte>) {
    exists results: seq<int>, rest: seq<int> ::
      RunApplier(bz, z, patch, data, results) == Ok(Work(ImgPatch.File(written, rest), hashed))
  }

  /** The job's patches are `patchFor`, the one for each source contents, and these appliers apply them. */
  ghost predicate Uses(j: Job, bz: Bzip, z: Zlib, patchFor: seq<byte> -> seq<byte>) {
    forall data: seq<byte>, hashed: seq<byte>, written: seq<byte> ::
      j.applies(data, hashed, written) <==> Succeeds(bz, z, patchFor(data), data, hashed, written)
  }

  /** No other contents have the target digest. */
  ghost predicate Unique(j: Job, target: seq<byte>) {
    forall x: seq<byte> :: j.sha(x) == j.targetSha <==> x == target
  }

  ghost predicate LengthKept(mask: seq<byte> -> Option<seq<byte>>) {
    forall x: seq<byte> :: mask(x).Some? ==> |mask(x).value| == |x|
  }

  /** The image patch cannot leave out CHUNK_NORMAL output unnoticed when it is applied to `data`. */
  ghost predicate Reliable(j: Job, bz: Bzip, z: Zlib, patch: seq<byte>, data: seq<byte>) {
    IsImage(patch) && !IsDelta(patch) ==>
      var ps := Parts(bz, z, data, patch);
      ps.Some? ==> Tight(ps.value, x => j.sha(x) == j.targetSha)
  }

  /** A delta is reported as applied only if all of it is in the file and in the digest. */
  lemma DeltaHonest(bz: Bzip, data: seq<byte>, patch: seq<byte>, results: seq<int>)
    ensures var r := ApplyDelta(bz, data, patch, 0, Work(ImgPatch.File([], results), []));
      r.Ok? ==> r.value.sink.bytes == r.value.hashed
  {
    hide Decode, Accept;
    var d := Decode(bz, data, patch, 0);
    if d.Ok? {
      AcceptWhole(ImgPatch.File([], results), d.value);
    }
  }

  /** A run with a reliable patch has written what it hashed, if the digest is the target's. */
  lemma ReliableHonest(j: Job, bz: Bzip, z: Zlib, patch: seq<byte>, data: seq<byte>, results: seq<int>)
    requires Reliable(j, bz, z, patch, data) && RunApplier(bz, z, patch, data, results).Ok?
    ensures var v := RunApplier(bz, z, patch, data, results).value;
      j.sha(v.hashed) == j.targetSha ==> v.sink.bytes == v.hashed
  {
    hide ApplyImage, ApplyDelta, Play, Tight, Parts;
    if IsDelta(patch) {
      DeltaHonest(bz, data, patch, results);
    } else {
      ApplyPlays(bz, z, data, patch, Work(ImgPatch.File([], results), []));
      HonestExactly(Parts(bz, z, data, patch).value, x => j.sha(x) == j.targetSha);
    }
  }

  /** An unreliable patch has a run that succeeds with the target digest and leaves a longer file. */
  lemma UnreliableRun(j: Job, bz: Bzip, z: Zlib, patch: seq<byte>, data: seq<byte>)
    returns (hashed: seq<byte>, written: seq<byte>)
    requires !Reliable(j, bz, z, patch, data)
    ensures Succeeds(bz, z, patch, data, hashed, written) && j.sha(hashed) == j.targetSha && |written| > |hashed|
  {
    hide ApplyImage, ApplyDelta, Play, Tight, Parts;
    var results;
    results, hashed, written := DishonestRun(Parts(bz, z, data, patch).value, x => j.sha(x) == j.targetSha);
    ApplyPlays(bz, z, data, patch, Work(ImgPatch.File([], results), []));
    assert RunApplier(bz, z, patch, data, results) == Ok(Work(ImgPatch.File(written, []), hashed));
  }

  /**
   For every job that can succeed: success always means that the target was written if and only if the target
   is in masked form and no image patch for loadable contents can leave out CHUNK_NORMAL output unnoticed.
   */
  lemma SoundExactly(j: Job, bz: Bzip, z: Zlib, patchFor: seq<byte> -> seq<byte>, data: seq<byte>, target: seq<byte>)
    requires Uses(j, bz, z, patchFor) && Unique(j, target) && LengthKept(j.mask)
    requires j.Loadable(data) && j.applies(data, target, target)
    ensures j.Sound() <==>
      j.mask(target) == Some(target) && forall d: seq<byte> :: j.Loadable(d) ==> Reliable(j, bz, z, patchFor(d), d)
  {
    hide Reliable, RunApplier, Job.Loadable;
    if j.Sound() {
      assert j.Accepts(target);
      forall d: seq<byte> | j.Loadable(d)
        ensures Reliable(j, bz, z, patchFor(d), d)
      {
        if !Reliable(j, bz, z, patchFor(d), d) {
          var hashed, written := UnreliableRun(j, bz, z, patchFor(d), d);
          LongerRejected(j, target, hashed, written);
        }
      }
    } else {
      var d: seq<byte>, hashed: seq<byte>, written: seq<byte> :|
        j.Loadable(d) && j.applies(d, hashed, written) && j.sha(hashed) == j.targetSha && !j.Accepts(written);
      var results: seq<int>, rest: seq<int> :|
        RunApplier(bz, z, patchFor(d), d, results) == Ok(Work(ImgPatch.File(written, rest), hashed));
      if Reliable(j, bz, z, patchFor(d), d) {
        ReliableHonest(j, bz, z, patchFor(d), d, results);
      }
    }
  }

  lemma LongerRejected(j: Job, target: seq<byte>, hashed: seq<byte>, written: seq<byte>)
    requires Unique(j, target) && LengthKept(j.mask) && j.sha(hashed) == j.targetSha && |written| > |hashed|
    ensures !j.Accepts(written)
  {
  }

  /** Deltas are always reliable. */
  lemma DeltaReliable(j: Job, bz: Bzip, z: Zlib, patch: seq<byte>, data: seq<byte>)
    requires IsDelta(patch)
    ensures Reliable(j, bz, z, patch, data)
  {
  }

  /** So is an image patch whose full output is the target, as imgdiff writes it. */
  lemma IntendedReliable(j: Job, bz: Bzip, z: Zlib, patch: seq<byte>, data: seq<byte>, target: seq<byte>)
    requires Unique(j, target)
    requires Parts(bz, z, data, patch).Some? && Image(Parts(bz, z, data, patch).value) == Some(target)
    ensures Reliable(j, bz, z, patch, data)
  {
    hide Parts, Concat, Tight;
    var ps := Parts(bz, z, data, patch).value;
    var good := (x: seq<byte>) => j.sha(x) == j.targetSha;
    assert forall x: seq<byte> :: good(x) ==> x == Concat(ps);
    IntendedIsTight(ps, good);
    TightSame(ps, good, x => j.sha(x) == j.targetSha);
  }

  lemma TightSame(ps: seq<Part>, f: seq<byte> -> bool, g: seq<byte> -> bool)
    requires Tight(ps, f) && forall x: seq<byte> :: f(x) == g(x)
    ensures Tight(ps, g)
  {
  }

  /**
   A patch that is not: the target in a CHUNK_RAW record, followed by a CHUNK_NORMAL record that yields
   something more.  A full disk during the second write goes unnoticed.
   */
  lemma JunkPatch(j: Job, bz: Bzip, z: Zlib, data: seq<byte>, target: seq<byte>, delta: seq<byte>, more: seq<byte>)
    requires |data| <= OFF_MAX && |target| < 0x8000_0000 && j.sha(target) == j.targetSha
    requires DecodesTo(bz, data, delta, more) && |more| > 1
    requires |ImageFile([RawEntry(target), NormalEntry(0, |data|, delta)])| <= OFF_MAX
    ensures !Reliable(j, bz, z, ImageFile([RawEntry(target), NormalEntry(0, |data|, delta)]), data)
  {
    hide DecodesTo, Parts, Tight, Records, Bodies, PartsFor;
    var es, outs := [RawEntry(target), NormalEntry(0, |data|, delta)], [target, more];
    assert data[0..0+|data|] == data;
    assert Yields(bz, z, data, es[0], outs[0]) && Yields(bz, z, data, es[1], outs[1]);
    ImageFileParts(bz, z, data, es, outs);
    TwoParts(es[0], es[1], target, more);
    RawThenNormal(target, more, Piece(RawRecord(target)), x => j.sha(x) == j.targetSha);
    ImageMagic(es);
  }

  lemma TwoParts(a: Entry, b: Entry, x: seq<byte>, y: seq<byte>)
    ensures PartsFor([a, b], [x, y]) == [PartFor(a, x), PartFor(b, y)]
  {
    hide PartFor;
    assert [a, b][1..] == [b] && [x, y][1..] == [y] && [b][1..] == [] && [y][1..] == [];
    assert PartsFor([b], [y]) == [PartFor(b, y)] + PartsFor([], []);
  }

  lemma ImageMagic(es: seq<Entry>)
    ensures IsImage(ImageFile(es)) && !IsDelta(ImageFile(es))
  {
    hide Records, Bodies;
    assert ImageFile(es)[..8] == IMGDIFF2;
    assert IMGDIFF2[0] != MAGIC[0];
  }
}
