/**
 What a successful run of the image applier has written and what it has hashed.

 The records of a patch are taken apart first: what each of them yields by itself does not depend on the
 sink.  Then it is the sink alone that decides which of the CHUNK_NORMAL outputs get lost unnoticed.
 */
module ImgParts {
  import opened Bytes
  import opened BsPatch
  import opened ImgPatch

  /** A record that must be written whole, a CHUNK_NORMAL record, or a CHUNK_NORMAL record that does not decode. */
  datatype Part = Must(data: seq<byte>, piece: nat) | May(data: seq<byte>) | Lost

  function PartOf(bz: Bzip, z: Zlib, src: seq<byte>, patch: seq<byte>, r: Record): (p: Option<Part>)
    ensures p.Some? && p.value.Must? ==> p.value.piece > 0
  {
    match Output(bz, z, src, patch, r)
    case Ok(d) => Some(if r.NormalRecord? then May(d) else Must(d, Piece(r)))
    case Failed => if r.NormalRecord? then Some(Lost) else None
    case Hangs => None
    case Undefined => None
  }

  /** All records from `pos` on, unless one of them ends every run. */
  function PartsFrom(bz: Bzip, z: Zlib, src: seq<byte>, patch: seq<byte>, pos: nat, count: int): (r: Option<seq<Part>>)
    ensures r.Some? ==> Pieced(r.value)
    decreases count
  {
    if count <= 0 then Some([])
    else
      match ParseRecord(patch, pos)
      case Ok(p) =>
        (match PartOf(bz, z, src, patch, p.record)
         case None => None
         case Some(part) =>
           match PartsFrom(bz, z, src, patch, p.next, count - 1)
           case None => None
           case Some(rest) => Some([part] + rest))
      case _ => None
  }

  function Parts(bz: Bzip, z: Zlib, src: seq<byte>, patch: seq<byte>): (r: Option<seq<Part>>)
    ensures r.Some? ==> Pieced(r.value)
  {
    if |patch| < 12 || patch[..8] != IMGDIFF2 then None else PartsFrom(bz, z, src, patch, 12, Read(patch[8..12]))
  }

  predicate Pieced(ps: seq<Part>) {
    forall i :: 0 <= i < |ps| && ps[i].Must? ==> ps[i].piece > 0
  }

  // ----- playing the parts -----

  function PlayPart(p: Part, w: Work): (r: Option<Work>)
    requires p.Must? ==> p.piece > 0
  {
    match p
    case Lost => Some(w)
    case May(d) =>
      var n := Accept(w.sink, d);
      Some(Work(n.1, if n.0 < |d| then w.hashed else w.hashed + d))
    case Must(d, piece) =>
      match AcceptPieces(w.sink, d, piece)
      case None => None
      case Some(t) => Some(Work(t, w.hashed + d))
  }

  function Play(ps: seq<Part>, w: Work): (r: Option<Work>)
    requires Pieced(ps)
  {
    if ps == [] then Some(w)
    else
      match PlayPart(ps[0], w)
      case None => None
      case Some(v) => Play(ps[1..], v)
  }

  lemma PieceTail(ps: seq<Part>)
    requires Pieced(ps) && ps != []
    ensures Pieced(ps[1..]) && (ps[0].Must? ==> ps[0].piece > 0)
  {
  }

  lemma {:induction false} ApplyPlaysFrom(bz: Bzip, z: Zlib, src: seq<byte>, patch: seq<byte>, pos: nat, count: int,
                                          w: Work)
    ensures var ps := PartsFrom(bz, z, src, patch, pos, count);
      var r := ApplyRecords(bz, z, src, patch, pos, count, w);
      if ps.Some? && Play(ps.value, w).Some? then r == Ok(Play(ps.value, w).value) else !r.Ok?
    decreases count
  {
    hide Output, ParseRecord, Accept, AcceptPieces, Pieced;
    if count > 0 && ParseRecord(patch, pos).Ok? {
      var p := ParseRecord(patch, pos).value;
      var rest := PartsFrom(bz, z, src, patch, p.next, count - 1);
      if ApplyRecord(bz, z, src, patch, p.record, w).Ok? {
        ApplyPlaysFrom(bz, z, src, patch, p.next, count - 1, ApplyRecord(bz, z, src, patch, p.record, w).value);
        if rest.Some? {
          assert ([PartOf(bz, z, src, patch, p.record).value] + rest.value)[1..] == rest.value;
        }
      }
    }
  }

  /** A run of the applier succeeds exactly if all parts exist and play, and then has played them. */
  lemma ApplyPlays(bz: Bzip, z: Zlib, src: seq<byte>, patch: seq<byte>, w: Work)
    ensures var ps := Parts(bz, z, src, patch);
      var r := ApplyImage(bz, z, src, patch, w);
      if ps.Some? && Play(ps.value, w).Some? then r == Ok(Play(ps.value, w).value) else !r.Ok?
  {
    hide Play, ApplyRecords, PartsFrom, Read;
    if !(|patch| < 12 || patch[..8] != IMGDIFF2) {
      ApplyPlaysFrom(bz, z, src, patch, 12, Read(patch[8..12]), w);
    }
  }

  /** A part of the source that is not there is read all the same, of which nothing is said. */
  lemma OutsideUndefined(bz: Bzip, z: Zlib, src: seq<byte>, patch: seq<byte>, r: Record)
    requires !r.RawRecord? && (r.start < 0 || r.len < 0 || r.start + r.len > |src|)
    ensures Output(bz, z, src, patch, r).Undefined?
  {
    hide Decode;
  }

  /** Raw data, and recompressed data that fits the buffer of 32768 bytes or the expanded length, is written at once. */
  lemma InOneWrite(bz: Bzip, z: Zlib, src: seq<byte>, patch: seq<byte>, r: Record, w: Work, d: seq<byte>)
    requires Output(bz, z, src, patch, r) == Ok(d) && d != []
    requires r.RawRecord? || (r.DeflateRecord? && (|d| <= 32768 || |d| <= r.expandedLen))
    ensures var n := Accept(w.sink, d);
      ApplyRecord(bz, z, src, patch, r, w) == if n.0 == |d| then Ok(Work(n.1, w.hashed + d)) else Failed
  {
    hide Accept, Decode;
    if r.RawRecord? {
      assert d == r.data;
    }
    assert d[..|d|] == d && d[|d|..] == [];
    AllAtOnce(w.sink, d, Piece(r));
  }

  lemma AllAtOnce(s: Sink, d: seq<byte>, piece: nat)
    requires d != [] && |d| <= piece
    ensures AcceptPieces(s, d, piece) == if Accept(s, d).0 == |d| then Some(Accept(s, d).1) else None
  {
    hide Accept;
    assert d[..|d|] == d && d[|d|..] == [];
  }

  // ----- when success means that every record was applied -----

  function Data(p: Part): (d: seq<byte>) {
    if p.Lost? then [] else p.data
  }

  function Concat(ps: seq<Part>): (d: seq<byte>) {
    if ps == [] then [] else Data(ps[0]) + Concat(ps[1..])
  }

  /** Every CHUNK_NORMAL record decodes, and the sink takes it whole when its turn comes. */
  predicate Taken(ps: seq<Part>, w: Work)
    requires Pieced(ps)
  {
    ps == [] ||
    (&& !ps[0].Lost?
     && (ps[0].May? ==> Accept(w.sink, ps[0].data).0 == |ps[0].data|)
     && (PlayPart(ps[0], w).Some? ==> Taken(ps[1..], PlayPart(ps[0], w).value)))
  }

  lemma {:induction false} PiecesAccepted(s: Sink, data: seq<byte>, piece: nat)
    requires piece > 0 && AcceptPieces(s, data, piece).Some?
    ensures AcceptPieces(s, data, piece).value.bytes == s.bytes + data
    decreases |data|
  {
    if data == [] {
      assert s.bytes + [] == s.bytes;
    } else {
      var k := if piece < |data| then piece else |data|;
      PiecesAccepted(Accept(s, data[..k]).1, data[k..], piece);
      AcceptWhole(s, data[..k]);
      assert s.bytes + data[..k] + data[k..] == s.bytes + data;
      hide Accept;
    }
  }

  lemma AcceptWhole(s: Sink, data: seq<byte>)
    ensures var n := Accept(s, data);
      if n.0 == |data| then n.1.bytes == s.bytes + data
      else data != [] && n.1.bytes == s.bytes + data[..(if n.0 < 0 then 0 else n.0)]
  {
    hide Written;
    assert data[..|data|] == data && s.bytes + [] == s.bytes;
  }

  /** One part: written and hashed whole, or shorter and not hashed. */
  lemma PartPlayed(p: Part, w: Work)
    requires (p.Must? ==> p.piece > 0) && PlayPart(p, w).Some?
    ensures var v := PlayPart(p, w).value; var whole := p.Must? || (p.May? && Accept(w.sink, p.data).0 == |p.data|);
      && (whole ==> v.sink.bytes == w.sink.bytes + Data(p) && v.hashed == w.hashed + Data(p))
      && (!whole ==> v.hashed == w.hashed && |v.sink.bytes| <= |w.sink.bytes| + |Data(p)|)
      && (!whole && p.May? ==> |v.sink.bytes| < |w.sink.bytes| + |p.data|)
      && w.sink.bytes <= v.sink.bytes
  {
    hide Accept, AcceptPieces;
    match p {
      case Lost =>
      case May(d) => AcceptWhole(w.sink, d);
      case Must(d, piece) => PiecesAccepted(w.sink, d, piece);
    }
  }

  /** What playing parts adds: everything if all is taken, less otherwise. */
  predicate Plays(ps: seq<Part>, w: Work, v: Work)
    requires Pieced(ps)
  {
    && |v.sink.bytes| <= |w.sink.bytes| + |Concat(ps)|
    && (Taken(ps, w) ==> v.sink.bytes == w.sink.bytes + Concat(ps) && v.hashed == w.hashed + Concat(ps) && Lost !in ps)
    && (!Taken(ps, w) && Lost !in ps ==> |v.sink.bytes| < |w.sink.bytes| + |Concat(ps)|)
  }

  lemma PlaysCons(ps: seq<Part>, w: Work, v: Work, end: Work)
    requires Pieced(ps) && ps != [] && PlayPart(ps[0], w) == Some(v) && Plays(ps[1..], v, end)
    ensures Plays(ps, w, end)
  {
    hide Accept, AcceptPieces, PlayPart;
    var p, rest := ps[0], ps[1..];
    PartPlayed(p, w);
    assert ps == [p] + rest;
    ConcatCons(ps);
    TakenCons(ps, w, v);
    hide Concat, Taken;
    Grouped(w.sink.bytes, Data(p), Concat(rest));
    Grouped(w.hashed, Data(p), Concat(rest));
  }

  lemma Grouped(a: seq<byte>, b: seq<byte>, c: seq<byte>)
    ensures a + b + c == a + (b + c)
  {
  }

  lemma ConcatCons(ps: seq<Part>)
    requires ps != []
    ensures Concat(ps) == Data(ps[0]) + Concat(ps[1..])
  {
  }

  lemma TakenCons(ps: seq<Part>, w: Work, v: Work)
    requires Pieced(ps) && ps != [] && PlayPart(ps[0], w) == Some(v)
    ensures Taken(ps, w) <==>
      !ps[0].Lost? && (ps[0].May? ==> Accept(w.sink, ps[0].data).0 == |ps[0].data|) && Taken(ps[1..], v)
  {
    hide Accept, PlayPart;
  }

  lemma {:induction false} PlayTaken(ps: seq<Part>, w: Work)
    requires Pieced(ps) && Play(ps, w).Some?
    ensures Plays(ps, w, Play(ps, w).value)
    decreases |ps|
  {
    hide PlayPart, Accept, Plays;
    if ps == [] {
      PlaysNone(w);
    } else {
      var v := PlayPart(ps[0], w).value;
      PlayTaken(ps[1..], v);
      PlaysCons(ps, w, v, Play(ps[1..], v).value);
    }
  }

  lemma PlaysNone(w: Work)
    ensures Plays([], w, w)
  {
    assert w.sink.bytes + [] == w.sink.bytes && w.hashed + [] == w.hashed;
  }

  /** The concatenation of what every record yields by itself; none if a CHUNK_NORMAL record does not decode. */
  function Image(ps: seq<Part>): (r: Option<seq<byte>>) {
    if Lost in ps then None else Some(Concat(ps))
  }

  /**
   For every patch, source and sink: a run that reports success has written the output of every record if
   and only if every CHUNK_NORMAL record decodes and is taken whole when its turn comes.
   */
  lemma AppliedExactly(bz: Bzip, z: Zlib, src: seq<byte>, patch: seq<byte>, w: Work)
    requires ApplyImage(bz, z, src, patch, w).Ok?
    ensures Parts(bz, z, src, patch).Some?
    ensures var ps := Parts(bz, z, src, patch).value; var v := ApplyImage(bz, z, src, patch, w).value;
      && (Taken(ps, w) <==> Image(ps).Some? && v.sink.bytes == w.sink.bytes + Image(ps).value)
      && (Taken(ps, w) ==> v.hashed == w.hashed + Image(ps).value)
  {
    hide Play, Taken, ApplyImage, Parts, Concat;
    ApplyPlays(bz, z, src, patch, w);
    PlayTaken(Parts(bz, z, src, patch).value, w);
  }

  /** A sink that takes `n` more bytes without trouble. */
  predicate Roomy(s: Sink, n: nat) {
    if s.Memory? then n <= s.room else s.results == []
  }

  lemma AcceptRoomy(s: Sink, data: seq<byte>, n: nat)
    requires Roomy(s, |data| + n)
    ensures var r := Accept(s, data); r.0 == |data| && r.1.bytes == s.bytes + data && Roomy(r.1, n)
  {
    assert data[..|data|] == data && s.bytes + [] == s.bytes;
  }

  lemma {:induction false} PiecesRoomy(s: Sink, data: seq<byte>, piece: nat, n: nat)
    requires piece > 0 && Roomy(s, |data| + n)
    ensures var r := AcceptPieces(s, data, piece); r.Some? && Roomy(r.value, n)
    decreases |data|
  {
    if data != [] {
      var k := if piece < |data| then piece else |data|;
      AcceptRoomy(s, data[..k], |data| - k + n);
      PiecesRoomy(Accept(s, data[..k]).1, data[k..], piece, n);
      hide Accept;
    }
  }

  /** In a sink with room for it the full image is written and hashed. */
  lemma {:induction false} PlayRoomy(ps: seq<Part>, w: Work)
    requires Pieced(ps) && Lost !in ps && Roomy(w.sink, |Concat(ps)|)
    ensures Play(ps, w).Some? && Taken(ps, w)
    decreases |ps|
  {
    hide Accept, AcceptPieces;
    if ps != [] {
      var n := |Concat(ps[1..])|;
      assert ps[0] in ps;
      if ps[0].May? {
        AcceptRoomy(w.sink, ps[0].data, n);
      } else {
        PiecesRoomy(w.sink, ps[0].data, ps[0].piece, n);
      }
      PlayRoomy(ps[1..], PlayPart(ps[0], w).value);
    }
  }

  /** The applier on a patch that has an image, with a sink that has room for it. */
  lemma ImageApplies(bz: Bzip, z: Zlib, src: seq<byte>, patch: seq<byte>, w: Work)
    requires Parts(bz, z, src, patch).Some? && Image(Parts(bz, z, src, patch).value).Some?
    requires Roomy(w.sink, |Image(Parts(bz, z, src, patch).value).value|)
    ensures var r := ApplyImage(bz, z, src, patch, w); var x := Image(Parts(bz, z, src, patch).value).value;
      r.Ok? && r.value.sink.bytes == w.sink.bytes + x && r.value.hashed == w.hashed + x
  {
    hide Play, Taken, ApplyImage, Parts, Concat;
    ApplyPlays(bz, z, src, patch, w);
    PlayRoomy(Parts(bz, z, src, patch).value, w);
    PlayTaken(Parts(bz, z, src, patch).value, w);
  }

  /** A patch of CHUNK_NORMAL records is reported as applied whatever the sink does. */
  lemma {:induction false} NormalsNeverFail(ps: seq<Part>, w: Work)
    requires Pieced(ps) && forall i :: 0 <= i < |ps| ==> !ps[i].Must?
    ensures Play(ps, w).Some?
    decreases |ps|
  {
    hide Accept;
    if ps != [] {
      NormalsNeverFail(ps[1..], PlayPart(ps[0], w).value);
    }
  }

  // ----- when the digest tells what was written -----

  /** The outputs of the records that must be written and of the chosen others. */
  function Kept(ps: seq<Part>, chosen: seq<bool>): (d: seq<byte>)
    requires |chosen| == |ps|
  {
    if ps == [] then []
    else (if ps[0].Must? || (ps[0].May? && chosen[0]) then ps[0].data else []) + Kept(ps[1..], chosen[1..])
  }

  /** Leaving out a CHUNK_NORMAL output of more than one byte always shows in the digest. */
  ghost predicate Tight(ps: seq<Part>, good: seq<byte> -> bool) {
    forall chosen: seq<bool>, i: nat ::
      |chosen| == |ps| && good(Kept(ps, chosen)) && i < |ps| && ps[i].May? && !chosen[i] ==>
      |ps[i].data| <= 1
  }

  /** A run keeps the outputs it takes whole; of the others no byte is left if they have at most one. */
  lemma {:induction false} PlayKeeps(ps: seq<Part>, w: Work) returns (chosen: seq<bool>)
    requires Pieced(ps) && Play(ps, w).Some?
    ensures |chosen| == |ps| && Play(ps, w).value.hashed == w.hashed + Kept(ps, chosen)
    ensures (forall i :: 0 <= i < |ps| && ps[i].May? && !chosen[i] ==> |ps[i].data| <= 1) ==>
      Play(ps, w).value.sink.bytes == w.sink.bytes + Kept(ps, chosen)
    decreases |ps|
  {
    hide PlayPart, Accept;
    if ps == [] {
      chosen := [];
      assert w.hashed + [] == w.hashed && w.sink.bytes + [] == w.sink.bytes;
    } else {
      var p, v := ps[0], PlayPart(ps[0], w).value;
      PartPlayed(p, w);
      var first := p.May? && Accept(w.sink, p.data).0 == |p.data|;
      var rest := PlayKeeps(ps[1..], v);
      chosen := [first] + rest;
      assert chosen[1..] == rest;
      var d := if p.Must? || (p.May? && first) then p.data else [];
      KeptStep(ps, chosen, d, rest, w.hashed, w.sink.bytes);
      if forall i :: 0 <= i < |ps| && ps[i].May? && !chosen[i] ==> |ps[i].data| <= 1 {
        forall i | 0 <= i < |ps[1..]| && ps[1..][i].May? && !rest[i] ensures |ps[1..][i].data| <= 1 {
          assert ps[1..][i] == ps[i+1] && rest[i] == chosen[i+1];
        }
        assert p == ps[0] && first == chosen[0];
        assert v.sink.bytes == w.sink.bytes + d;
      }
    }
  }

  lemma KeptStep(ps: seq<Part>, chosen: seq<bool>, d: seq<byte>, rest: seq<bool>, h: seq<byte>, b: seq<byte>)
    requires ps != [] && |chosen| == |ps| && rest == chosen[1..]
    requires d == if ps[0].Must? || (ps[0].May? && chosen[0]) then ps[0].data else []
    ensures Kept(ps, chosen) == d + Kept(ps[1..], rest)
    ensures h + Kept(ps, chosen) == h + d + Kept(ps[1..], rest) && b + Kept(ps, chosen) == b + d + Kept(ps[1..], rest)
    ensures h + [] == h && b + [] == b
  {
  }

  // ----- a file that behaves as badly as it can -----

  /** write() results that take all of `data`, piece by piece. */
  function FullWrites(data: seq<byte>, piece: nat): (r: seq<int>)
    requires piece > 0
    decreases |data|
  {
    if data == [] then []
    else
      var k := if piece < |data| then piece else |data|;
      [k] + FullWrites(data[k..], piece)
  }

  lemma {:induction false} WholeAccepted(b: seq<byte>, data: seq<byte>, piece: nat, rest: seq<int>)
    requires piece > 0
    ensures AcceptPieces(File(b, FullWrites(data, piece) + rest), data, piece) == Some(File(b + data, rest))
    decreases |data|
  {
    if data == [] {
      assert FullWrites(data, piece) + rest == rest && b + data == b;
    } else {
      var k := if piece < |data| then piece else |data|;
      var more := FullWrites(data[k..], piece) + rest;
      assert FullWrites(data, piece) + rest == [k] + more && ([k] + more)[1..] == more;
      OneWrite(b, data[..k], more);
      WholeAccepted(b + data[..k], data[k..], piece, rest);
      assert b + data[..k] + data[k..] == b + data;
      hide Accept, FullWrites;
    }
  }

  lemma OneWrite(b: seq<byte>, data: seq<byte>, rest: seq<int>)
    requires data != []
    ensures Accept(File(b, [|data|] + rest), data) == (|data|, File(b + data, rest))
  {
    var rs := [|data|] + rest;
    assert rs[1..] == rest && Written(0, rest) == (0, rest) && Written(|data|, rs) == (|data|, rest);
    assert data[..|data|] == data;
  }

  /** One byte is written, then write() fails. */
  lemma ShortWrite(b: seq<byte>, data: seq<byte>, rest: seq<int>)
    requires |data| >= 2
    ensures Accept(File(b, [1, 0] + rest), data) == (1, File(b + data[..1], rest))
  {
    var rs := [1, 0] + rest;
    assert rs[1..] == [0] + rest && ([0] + rest)[1..] == rest;
    assert Written(|data| - 1, [0] + rest) == (0, rest);
  }

  lemma NoWrite(b: seq<byte>, data: seq<byte>, rest: seq<int>)
    requires data != []
    ensures Accept(File(b, [0] + rest), data) == (0, File(b, rest))
  {
    assert ([0] + rest)[1..] == rest && data[..0] == [] && b + [] == b;
  }

  /** The results for one part that is to be kept, or left out after as much as one byte. */
  function Script(p: Part, keep: bool): (r: seq<int>)
    requires p.Must? ==> p.piece > 0
  {
    match p
    case Lost => []
    case Must(d, piece) => FullWrites(d, piece)
    case May(d) => if d == [] then [] else if keep then [|d|] else if |d| == 1 then [0] else [1, 0]
  }

  /** What is left in the file of a part. */
  function Trace(p: Part, keep: bool): (d: seq<byte>) {
    match p
    case Lost => []
    case Must(d, _) => d
    case May(d) => if keep then d else if |d| <= 1 then [] else d[..1]
  }

  lemma ScriptPlays(p: Part, keep: bool, b: seq<byte>, h: seq<byte>, rest: seq<int>)
    requires p.Must? ==> p.piece > 0
    ensures PlayPart(p, Work(File(b, Script(p, keep) + rest), h))
      == Some(Work(File(b + Trace(p, keep), rest), h + if p.Must? || (p.May? && keep) then p.data else []))
  {
    assert [] + rest == rest && b + [] == b && h + [] == h;
    match p {
      case Lost =>
      case Must(d, piece) => WholeAccepted(b, d, piece, rest);
      case May(d) =>
        if d == [] {
          assert Written(0, rest) == (0, rest) && d[..0] == [];
        } else if keep {
          OneWrite(b, d, rest);
        } else if |d| == 1 {
          NoWrite(b, d, rest);
        } else {
          ShortWrite(b, d, rest);
        }
    }
  }

  function Scripts(ps: seq<Part>, chosen: seq<bool>): (r: seq<int>)
    requires |chosen| == |ps| && Pieced(ps)
  {
    if ps == [] then [] else Script(ps[0], chosen[0]) + Scripts(ps[1..], chosen[1..])
  }

  function Traces(ps: seq<Part>, chosen: seq<bool>): (d: seq<byte>)
    requires |chosen| == |ps|
  {
    if ps == [] then [] else Trace(ps[0], chosen[0]) + Traces(ps[1..], chosen[1..])
  }

  lemma {:induction false} ScriptsPlay(ps: seq<Part>, chosen: seq<bool>, b: seq<byte>, h: seq<byte>)
    requires |chosen| == |ps| && Pieced(ps)
    ensures Play(ps, Work(File(b, Scripts(ps, chosen)), h))
        == Some(Work(File(b + Traces(ps, chosen), []), h + Kept(ps, chosen)))
    decreases |ps|
  {
    hide PlayPart, Script, Trace;
    if ps == [] {
      assert b + [] == b && h + [] == h;
    } else {
      var p, keep, rest := ps[0], chosen[0], Scripts(ps[1..], chosen[1..]);
      ScriptPlays(p, keep, b, h, rest);
      var d := if p.Must? || (p.May? && keep) then p.data else [];
      ScriptsPlay(ps[1..], chosen[1..], b + Trace(p, keep), h + d);
      assert b + Trace(p, keep) + Traces(ps[1..], chosen[1..]) == b + Traces(ps, chosen);
      KeptStep(ps, chosen, d, chosen[1..], h, b);
    }
  }

  /** A part of more than one byte that is left out leaves more bytes in the file than in the digest. */
  lemma {:induction false} TracesLonger(ps: seq<Part>, chosen: seq<bool>, i: nat)
    requires |chosen| == |ps|
    ensures |Traces(ps, chosen)| >= |Kept(ps, chosen)|
    ensures i < |ps| && ps[i].May? && !chosen[i] && |ps[i].data| > 1 ==> |Traces(ps, chosen)| > |Kept(ps, chosen)|
    decreases |ps|
  {
    if ps != [] {
      TracesLonger(ps[1..], chosen[1..], if i == 0 then 0 else i - 1);
    }
  }

  /** However write() behaves, a run that succeeds with a good digest has written what it hashed. */
  ghost predicate Honest(ps: seq<Part>, good: seq<byte> -> bool)
    requires Pieced(ps)
  {
    forall results: seq<int> ::
      var r := Play(ps, Work(File([], results), []));
      r.Some? && good(r.value.hashed) ==> r.value.sink.bytes == r.value.hashed
  }

  /**
   The digest vouches for the file, for every behaviour of write(), if and only if no CHUNK_NORMAL outputs
   can be left out, one of them of more than one byte, so that the rest has the digest.
   */
  lemma HonestExactly(ps: seq<Part>, good: seq<byte> -> bool)
    requires Pieced(ps)
    ensures Honest(ps, good) <==> Tight(ps, good)
  {
    hide Play, Kept, Traces, Scripts;
    if Tight(ps, good) {
      forall results: seq<int> | Play(ps, Work(File([], results), [])).Some?
        ensures var v := Play(ps, Work(File([], results), [])).value; good(v.hashed) ==> v.sink.bytes == v.hashed
      {
        var w := Work(File([], results), []);
        var chosen := PlayKeeps(ps, w);
        assert [] + Kept(ps, chosen) == Kept(ps, chosen);
      }
    } else {
      var results, hashed, written := DishonestRun(ps, good);
      assert !Honest(ps, good);
    }
  }

  /** A run that succeeds with a good digest and leaves more in the file. */
  lemma DishonestRun(ps: seq<Part>, good: seq<byte> -> bool)
    returns (results: seq<int>, hashed: seq<byte>, written: seq<byte>)
    requires Pieced(ps) && !Tight(ps, good)
    ensures Play(ps, Work(File([], results), [])) == Some(Work(File(written, []), hashed))
    ensures good(hashed) && |written| > |hashed|
  {
    hide Play, Kept, Traces, Scripts;
    var chosen: seq<bool>, i: nat :|
      |chosen| == |ps| && good(Kept(ps, chosen)) && i < |ps| && ps[i].May? && !chosen[i] && |ps[i].data| > 1;
    ScriptsPlay(ps, chosen, [], []);
    TracesLonger(ps, chosen, i);
    assert [] + Kept(ps, chosen) == Kept(ps, chosen) && [] + Traces(ps, chosen) == Traces(ps, chosen);
    results, hashed, written := Scripts(ps, chosen), Kept(ps, chosen), Traces(ps, chosen);
  }

  lemma {:induction false} KeptShorter(ps: seq<Part>, chosen: seq<bool>, i: nat)
    requires |chosen| == |ps|
    ensures |Kept(ps, chosen)| <= |Concat(ps)|
    ensures i < |ps| && ps[i].May? && !chosen[i] ==> |Kept(ps, chosen)| + |ps[i].data| <= |Concat(ps)|
    decreases |ps|
  {
    if ps != [] {
      KeptShorter(ps[1..], chosen[1..], if i == 0 then 0 else i - 1);
    }
  }

  /** A patch whose full output is the only good contents is tight. */
  lemma IntendedIsTight(ps: seq<Part>, good: seq<byte> -> bool)
    requires forall x: seq<byte> :: good(x) ==> x == Concat(ps)
    ensures Tight(ps, good)
  {
    forall chosen: seq<bool>, i: nat |
      |chosen| == |ps| && good(Kept(ps, chosen)) && i < |ps| && ps[i].May? && !chosen[i]
      ensures |ps[i].data| <= 1
    {
      KeptShorter(ps, chosen, i);
    }
  }

  /** The target in a CHUNK_RAW record and something more in a CHUNK_NORMAL record is not. */
  lemma RawThenNormal(target: seq<byte>, more: seq<byte>, piece: nat, good: seq<byte> -> bool)
    requires good(target) && |more| > 1
    ensures !Tight([Must(target, piece), May(more)], good)
  {
    var ps, chosen := [Must(target, piece), May(more)], [false, false];
    assert Kept(ps, chosen) == target by {
      assert ps[1..] == [May(more)] && chosen[1..] == [false];
      assert [May(more)][1..] == [] && [false][1..] == [];
      assert Kept([], []) == [];
      assert Kept([May(more)], [false]) == [] + Kept([], []);
    }
    assert ps[1].May? && !chosen[1] && |ps[1].data| > 1;
  }
}
