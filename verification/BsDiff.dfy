/**
 The delta encoder of bsdiff.c.  `src` and `tgt` are the source's `old` and `new`.
 */
module BsDiff {
  import opened Bytes
  import opened BsPatch
  import opened QSufSort

  /** Entries of `I` point into `src`; this is all that the encoder relies on. */
  ghost predicate Indexes(src: seq<byte>, I: seq<int>) {
    |I| == |src| + 1 && forall k :: 0 <= k < |I| ==> 0 <= I[k] <= |src|
  }

  // ----- search -----

  /** `tgt` starts with the `len` bytes that `src` has at `pos`. */
  ghost predicate Matches(src: seq<byte>, pos: int, tgt: seq<byte>, len: int) {
    0 <= pos && 0 <= len <= |tgt| && pos + len <= |src| && src[pos..pos+len] == tgt[..len]
  }

  method MatchLen(a: seq<byte>, b: seq<byte>) returns (i: int)
    ensures Matches(a, 0, b, i)
    ensures forall l :: Matches(a, 0, b, l) ==> l <= i
  {
    i := 0;
    while i < |a| && i < |b|
      invariant Matches(a, 0, b, i)
    {
      if a[i] != b[i] {
        assert forall l :: l > i && Matches(a, 0, b, l) ==> a[..l][i] == b[..l][i];
        break;
      }
      i := i + 1;
    }
  }

  /** memcmp over the shorter length is negative. */
  predicate Before(a: seq<byte>, b: seq<byte>) {
    a != [] && b != [] && (a[0] < b[0] || (a[0] == b[0] && Before(a[1..], b[1..])))
  }

  /** A genuine match, as long as it can be at the position returned. */
  method Search(I: seq<int>, src: seq<byte>, tgt: seq<byte>, st: int, en: int) returns (len: int, pos: int)
    requires Indexes(src, I) && 0 <= st <= en <= |src|
    ensures Matches(src, pos, tgt, len) && pos in I[st..en+1]
    ensures forall l :: Matches(src, pos, tgt, l) ==> l <= len
    decreases en - st
  {
    if en - st < 2 {
      var x := MatchLen(src[I[st]..], tgt);
      var y := MatchLen(src[I[en]..], tgt);
      if x > y {
        MatchShift(src, I[st], tgt, x);
        return x, I[st];
      } else {
        MatchShift(src, I[en], tgt, y);
        return y, I[en];
      }
    }
    var x := st + (en - st) / 2;
    if Before(src[I[x]..], tgt) {
      len, pos := Search(I, src, tgt, x, en);
    } else {
      len, pos := Search(I, src, tgt, st, x);
    }
  }

  lemma MatchShift(src: seq<byte>, p: nat, tgt: seq<byte>, len: int)
    requires p <= |src|
    ensures forall l :: Matches(src[p..], 0, tgt, l) <==> Matches(src, p, tgt, l)
  {
    forall l
      ensures Matches(src[p..], 0, tgt, l) <==> Matches(src, p, tgt, l)
    {
      if 0 <= l && p + l <= |src| {
        assert src[p..][..l] == src[p..p+l];
      }
    }
  }

  // ----- lines 284-301: looking for the next match -----

  /** `tgt[t]` is what continuing at the last offset would predict. */
  predicate Predicted(src: seq<byte>, tgt: seq<byte>, offset: int, t: int) {
    0 <= t < |tgt| && 0 <= t + offset < |src| && src[t+offset] == tgt[t]
  }

  ghost function Hits(src: seq<byte>, tgt: seq<byte>, offset: int, lo: int, hi: int): nat
    decreases hi - lo
  {
    if lo >= hi then 0 else Hits(src, tgt, offset, lo, hi - 1) + (if Predicted(src, tgt, offset, hi - 1) then 1 else 0)
  }

  lemma {:induction false} HitsFront(src: seq<byte>, tgt: seq<byte>, offset: int, lo: int, hi: int)
    requires lo < hi
    ensures Hits(src, tgt, offset, lo, hi) == (if Predicted(src, tgt, offset, lo) then 1 else 0)
        + Hits(src, tgt, offset, lo + 1, hi)
    decreases hi - lo
  {
    if lo + 1 < hi {
      HitsFront(src, tgt, offset, lo, hi - 1);
    }
  }

  lemma HitsNext(src: seq<byte>, tgt: seq<byte>, offset: int, scan: int, scsc: int)
    ensures scan <= scsc ==>
      Hits(src, tgt, offset, scan, scsc + 1) == Hits(src, tgt, offset, scan, scsc)
        + (if Predicted(src, tgt, offset, scsc) then 1 else 0)
    ensures Hits(src, tgt, offset, scsc, scsc) == 0 && Hits(src, tgt, offset, scsc + 1, scsc + 1) == 0
    ensures Hits(src, tgt, offset, scsc, scsc + 1) == if Predicted(src, tgt, offset, scsc) then 1 else 0
  {
  }

  /** oldscore counts the predicted bytes of `scan..scsc-1`; it lags one behind when scsc does. */
  ghost predicate Scored(src: seq<byte>, tgt: seq<byte>, offset: int, scan: int, scsc: int, oldscore: int) {
    if scan <= scsc then oldscore == Hits(src, tgt, offset, scan, scsc)
    else scsc == scan - 1 && oldscore == 0 - Hits(src, tgt, offset, scsc, scan)
  }

  /** Lines 290-293. */
  method CountPredicted(src: seq<byte>, tgt: seq<byte>, offset: int, scan: int, end: int, scsc0: int, oldscore0: int)
    returns (scsc: int, oldscore: int)
    requires 0 <= scan <= end <= |tgt| && 0 <= scsc0 <= |tgt| && scsc0 + offset >= 0
    requires Scored(src, tgt, offset, scan, scsc0, oldscore0)
    ensures scsc == if scsc0 < end then end else scsc0
    ensures Scored(src, tgt, offset, scan, scsc, oldscore) && oldscore >= 0
  {
    scsc, oldscore := scsc0, oldscore0;
    while scsc < end
      invariant scsc0 <= scsc && (scsc <= end || scsc == scsc0)
      invariant Scored(src, tgt, offset, scan, scsc, oldscore)
    {
      HitsNext(src, tgt, offset, scan, scsc);
      if scsc + offset < |src| && src[scsc+offset] == tgt[scsc] {
        oldscore := oldscore + 1;
      }
      scsc := scsc + 1;
    }
  }

  /**
   Lines 286-301: advance to the next position whose match beats continuing at the last offset.
   A match that is found is never empty, which is what makes the outer loop advance.
   */
  method FindMatch(src: seq<byte>, I: seq<int>, tgt: seq<byte>, start: int, len0: int, pos0: int, lastoffset: int)
    returns (scan: int, len: int, pos: int, oldscore: int)
    requires Indexes(src, I) && 0 <= start <= |tgt| && start + lastoffset >= 0 && 0 <= pos0 <= |src|
    ensures start <= scan <= |tgt| && 0 <= pos <= |src|
    ensures scan < |tgt| ==> 0 < len <= |tgt| - scan && Matches(src, pos, tgt[scan..], len)
    ensures 0 <= len0 ==> 0 <= len
    ensures start == |tgt| ==> scan == start && pos == pos0
  {
    scan, len, pos := start, len0, pos0;
    oldscore := 0;
    var scsc := scan;
    while scan < |tgt|
      invariant start <= scan <= |tgt| && 0 <= pos <= |src|
      invariant start <= scsc <= |tgt| && Scored(src, tgt, lastoffset, scan, scsc, oldscore)
      invariant start == |tgt| ==> scan == start && pos == pos0
      invariant 0 <= len0 ==> 0 <= len
    {
      len, pos := Search(I, src, tgt[scan..], 0, |src|);
      scsc, oldscore := CountPredicted(src, tgt, lastoffset, scan, scan + len, scsc, oldscore);
      if (len == oldscore && len != 0) || len > oldscore + 8 {
        break;
      }
      if scan < scsc {
        HitsFront(src, tgt, lastoffset, scan, scsc);
      }
      if scan + lastoffset < |src| && src[scan+lastoffset] == tgt[scan] {
        oldscore := oldscore - 1;
      }
      scan := scan + 1;
    }
  }

  // ----- lines 304-333: how far to extend the two matches -----

  /** Equal bytes among the first `i` of two sequences compared from `p` and `q` on. */
  ghost function Agree(a: seq<byte>, p: int, b: seq<byte>, q: int, i: nat): nat
    requires 0 <= p && p + i <= |a| && 0 <= q && q + i <= |b|
  {
    if i == 0 then 0 else Agree(a, p, b, q, i - 1) + (if a[p+i-1] == b[q+i-1] then 1 else 0)
  }

  /** Lines 304-309: the extension of the last match that scores best. */
  method ForwardLen(src: seq<byte>, tgt: seq<byte>, lastpos: int, lastscan: int, scan: int) returns (lenf: int)
    requires 0 <= lastpos <= |src| && 0 <= lastscan <= scan <= |tgt|
    ensures 0 <= lenf <= scan - lastscan && lastpos + lenf <= |src|
    ensures forall i {:trigger Agree(src, lastpos, tgt, lastscan, i)} ::
      0 <= i <= scan - lastscan && lastpos + i <= |src| ==>
      2 * Agree(src, lastpos, tgt, lastscan, i) - i <= 2 * Agree(src, lastpos, tgt, lastscan, lenf) - lenf
  {
    var s, Sf := 0, 0;
    lenf := 0;
    var i := 0;
    while lastscan + i < scan && lastpos + i < |src|
      invariant 0 <= lenf <= i <= scan - lastscan && lastpos + i <= |src|
      invariant s == Agree(src, lastpos, tgt, lastscan, i) && Sf == Agree(src, lastpos, tgt, lastscan, lenf)
      invariant forall k {:trigger Agree(src, lastpos, tgt, lastscan, k)} :: 0 <= k <= i ==>
        2 * Agree(src, lastpos, tgt, lastscan, k) - k <= 2 * Sf - lenf
    {
      if src[lastpos+i] == tgt[lastscan+i] {
        s := s + 1;
      }
      i := i + 1;
      if s * 2 - i > Sf * 2 - lenf {
        Sf := s;
        lenf := i;
      }
    }
  }

  /** Equal bytes among the last `i` before `p` and `q`. */
  ghost function AgreeBack(a: seq<byte>, p: int, b: seq<byte>, q: int, i: nat): nat
    requires i <= p <= |a| && i <= q <= |b|
  {
    if i == 0 then 0 else AgreeBack(a, p, b, q, i - 1) + (if a[p-i] == b[q-i] then 1 else 0)
  }

  /** Lines 311-318: the extension of the new match backwards that scores best; none at the end of the target. */
  method BackwardLen(src: seq<byte>, tgt: seq<byte>, pos: int, lastscan: int, scan: int) returns (lenb: int)
    requires 0 <= pos <= |src| && 0 <= lastscan <= scan <= |tgt|
    ensures 0 <= lenb <= scan - lastscan && lenb <= pos
    ensures scan == |tgt| ==> lenb == 0
    ensures forall i {:trigger AgreeBack(src, pos, tgt, scan, i)} ::
      scan < |tgt| && 0 <= i <= scan - lastscan && i <= pos ==>
      2 * AgreeBack(src, pos, tgt, scan, i) - i <= 2 * AgreeBack(src, pos, tgt, scan, lenb) - lenb
  {
    lenb := 0;
    if scan < |tgt| {
      var s, Sb := 0, 0;
      var i := 1;
      while scan >= lastscan + i && pos >= i
        invariant 0 <= lenb < i <= scan - lastscan + 1 && i <= pos + 1
        invariant s == AgreeBack(src, pos, tgt, scan, i - 1) && Sb == AgreeBack(src, pos, tgt, scan, lenb)
        invariant forall k {:trigger AgreeBack(src, pos, tgt, scan, k)} :: 0 <= k < i ==>
          2 * AgreeBack(src, pos, tgt, scan, k) - k <= 2 * Sb - lenb
      {
        if src[pos-i] == tgt[scan-i] {
          s := s + 1;
        }
        if s * 2 - i > Sb * 2 - lenb {
          Sb := s;
          lenb := i;
        }
        i := i + 1;
      }
    }
  }

  /** How much better the first `i` bytes of an overlap fit the old match, from `p`, than the new one, from `q`. */
  ghost function Gain(src: seq<byte>, tgt: seq<byte>, t: int, p: int, q: int, i: nat): int
    requires 0 <= t && t + i <= |tgt| && 0 <= p && p + i <= |src| && 0 <= q && q + i <= |src|
  {
    if i == 0 then 0
    else
      Gain(src, tgt, t, p, q, i - 1) + (if tgt[t+i-1] == src[p+i-1] then 1 else 0)
        - (if tgt[t+i-1] == src[q+i-1] then 1 else 0)
  }

  /**
   Lines 320-333: divide an overlap between the two where the old match gains most; neither length
   becomes negative.
   */
  method DivideOverlap(src: seq<byte>, tgt: seq<byte>, lastpos: int, lastscan: int, pos: int, scan: int, lenf0: int,
                       lenb0: int)
    returns (lenf: int, lenb: int)
    requires 0 <= lastpos <= |src| && 0 <= pos <= |src| && 0 <= lastscan <= scan <= |tgt|
    requires 0 <= lenf0 <= scan - lastscan && lastpos + lenf0 <= |src|
    requires 0 <= lenb0 <= scan - lastscan && lenb0 <= pos
    ensures 0 <= lenf <= lenf0 && 0 <= lenb <= lenb0 && lastscan + lenf <= scan - lenb
    ensures lastscan + lenf0 < scan - lenb0 ==> lenf == lenf0 && lenb == lenb0
    ensures var overlap := (lastscan + lenf0) - (scan - lenb0);
      overlap >= 0 ==>
        && lastscan + lenf == scan - lenb
        && var t, p, q := scan - lenb0, lastpos + lenf0 - overlap, pos - lenb0;
           forall i {:trigger Gain(src, tgt, t, p, q, i)} :: 0 <= i <= overlap ==>
             Gain(src, tgt, t, p, q, i) <= Gain(src, tgt, t, p, q, lenb0 - lenb)
  {
    lenf, lenb := lenf0, lenb0;
    if lastscan + lenf > scan - lenb {
      var overlap := (lastscan + lenf) - (scan - lenb);
      ghost var t, p, q := scan - lenb0, lastpos + lenf0 - overlap, pos - lenb0;
      var s, Ss, lens := 0, 0, 0;
      for i := 0 to overlap
        invariant 0 <= lens <= i
        invariant s == Gain(src, tgt, t, p, q, i) && Ss == Gain(src, tgt, t, p, q, lens)
        invariant forall k {:trigger Gain(src, tgt, t, p, q, k)} :: 0 <= k <= i ==> Gain(src, tgt, t, p, q, k) <= Ss
      {
        if tgt[lastscan+lenf-overlap+i] == src[lastpos+lenf-overlap+i] {
          s := s + 1;
        }
        if tgt[scan-lenb+i] == src[pos-lenb+i] {
          s := s - 1;
        }
        if s > Ss {
          Ss := s;
          lens := i + 1;
        }
      }
      lenf := lenf + lens - overlap;
      lenb := lenb - lens;
    }
  }

  // ----- what has been written so far -----

  /** The difference bytes for `len` bytes of `tgt` from `t` on against `src` from `p` on. */
  ghost function Diff(src: seq<byte>, p: int, tgt: seq<byte>, t: int, len: nat): (r: seq<byte>)
    requires 0 <= p && p + len <= |src| && 0 <= t && t + len <= |tgt|
    ensures |r| == len
  {
    seq<byte>(len, i requires 0 <= i < len => Minus(tgt[t+i], src[p+i]))
  }

  /** Adding the source back to the difference gives the target. */
  lemma AddDiff(src: seq<byte>, p: int, tgt: seq<byte>, t: int, len: nat)
    requires 0 <= p && p + len <= |src| && 0 <= t && t + len <= |tgt|
    ensures Add(src, p, Diff(src, p, tgt, t, len)) == tgt[t..t+len]
  {
    forall i | 0 <= i < len
      ensures Add(src, p, Diff(src, p, tgt, t, len))[i] == tgt[t+i]
    {
      PlusMinus(tgt[t+i], src[p+i]);
    }
  }

  /**
   The three streams written so far bring a decoder, whatever follows them, to the point where it
   has made `tgt[..lastscan]` and stands at `lastpos` of the source.
   */
  ghost predicate Covers(src: seq<byte>, tgt: seq<byte>, ctrl: seq<byte>, db: seq<byte>, eb: seq<byte>, lastscan: int,
                         lastpos: int) {
    0 <= lastscan <= |tgt| &&
    forall dry: Dry, c: seq<byte>, d: seq<byte>, e: seq<byte> ::
      Replay(src, |tgt|, dry, Playing(ctrl + c, db + d, eb + e, 0, []))
        == Replay(src, |tgt|, dry, Playing(c, d, e, lastpos, tgt[..lastscan]))
  }

  /** Replaying the streams gives exactly the target, and asks none of them for more than it has. */
  ghost predicate Replays(src: seq<byte>, tgt: seq<byte>, ctrl: seq<byte>, db: seq<byte>, eb: seq<byte>) {
    forall dry: Dry :: Replay(src, |tgt|, dry, Playing(ctrl, db, eb, 0, [])) == Ok(tgt)
  }

  ghost function Triple(x: int, y: int, z: int): seq<byte> {
    Offtout(x) + Offtout(y) + Offtout(z)
  }

  lemma TripleParts(x: int, y: int, z: int, c: seq<byte>)
    requires -OFF_MAX <= x <= OFF_MAX && -OFF_MAX <= y <= OFF_MAX && -OFF_MAX <= z <= OFF_MAX
    ensures var t := Triple(x, y, z) + c;
      |t| == 24 + |c| && Offtin(t[..8]) == x && Offtin(t[8..16]) == y && Offtin(t[16..24]) == z && t[24..] == c
  {
    hide Offtin, Offtout;
    OfftinOfftout(x);
    OfftinOfftout(y);
    OfftinOfftout(z);
    var t := Triple(x, y, z) + c;
    assert t[..8] == Offtout(x) && t[8..16] == Offtout(y) && t[16..24] == Offtout(z) && t[24..] == c;
  }

  /** One triple moves the decoder from (`lastscan`, `lastpos`) to behind the extra bytes. */
  lemma TripleStep(src: seq<byte>, tgt: seq<byte>, lastscan: int, lastpos: int, x: int, y: int, z: int,
                   dry: Dry, c: seq<byte>, d: seq<byte>, e: seq<byte>)
    requires |src| <= OFF_MAX && |tgt| <= OFF_MAX
    requires 0 <= lastscan && 0 <= x && 0 <= y && lastscan + x + y <= |tgt| && lastscan < |tgt|
    requires 0 <= lastpos && lastpos + x <= |src| && 0 <= lastpos + x + z <= |src|
    ensures var p := Playing(Triple(x, y, z) + c, Diff(src, lastpos, tgt, lastscan, x) + d,
                             tgt[lastscan+x..lastscan+x+y] + e, lastpos, tgt[..lastscan]);
      Step(src, |tgt|, dry, p) == Ok(Playing(c, d, e, lastpos + x + z, tgt[..lastscan+x+y]))
  {
    hide Offtin, Triple, Add, Diff;
    TripleParts(x, y, z, c);
    var D, E := Diff(src, lastpos, tgt, lastscan, x), tgt[lastscan+x..lastscan+x+y];
    assert (D + d)[..x] == D && (D + d)[x..] == d;
    assert (E + e)[..y] == E && (E + e)[y..] == e;
    AddDiff(src, lastpos, tgt, lastscan, x);
    assert tgt[..lastscan] + tgt[lastscan..lastscan+x] + E == tgt[..lastscan+x+y];
  }

  lemma CoversExtend(src: seq<byte>, tgt: seq<byte>, ctrl: seq<byte>, db: seq<byte>, eb: seq<byte>, lastscan: int,
                     lastpos: int, x: int, y: int, z: int)
    requires |src| <= OFF_MAX && |tgt| <= OFF_MAX
    requires Covers(src, tgt, ctrl, db, eb, lastscan, lastpos)
    requires 0 <= x && 0 <= y && lastscan + x + y <= |tgt| && lastscan < |tgt|
    requires 0 <= lastpos && lastpos + x <= |src| && 0 <= lastpos + x + z <= |src|
    ensures Covers(src, tgt, ctrl + Triple(x, y, z), db + Diff(src, lastpos, tgt, lastscan, x), eb
        + tgt[lastscan+x..lastscan+x+y],
                   lastscan + x + y, lastpos + x + z)
  {
    hide Step, Triple, Diff;
    var T, D, E := Triple(x, y, z), Diff(src, lastpos, tgt, lastscan, x), tgt[lastscan+x..lastscan+x+y];
    forall dry: Dry, c: seq<byte>, d: seq<byte>, e: seq<byte>
      ensures Replay(src, |tgt|, dry, Playing(ctrl + T + c, db + D + d, eb + E + e, 0, []))
           == Replay(src, |tgt|, dry, Playing(c, d, e, lastpos + x + z, tgt[..lastscan+x+y]))
    {
      assert ctrl + T + c == ctrl + (T + c) && db + D + d == db + (D + d) && eb + E + e == eb + (E + e);
      TripleStep(src, tgt, lastscan, lastpos, x, y, z, dry, c, d, e);
    }
  }

  lemma CoversStart(src: seq<byte>, tgt: seq<byte>)
    ensures Covers(src, tgt, [], [], [], 0, 0)
  {
    forall dry: Dry, c: seq<byte>, d: seq<byte>, e: seq<byte>
      ensures Replay(src, |tgt|, dry, Playing([] + c, [] + d, [] + e, 0, []))
          == Replay(src, |tgt|, dry, Playing(c, d, e, 0, tgt[..0]))
    {
      assert [] + c == c && [] + d == d && [] + e == e;
    }
  }

  lemma CoversEnd(src: seq<byte>, tgt: seq<byte>, ctrl: seq<byte>, db: seq<byte>, eb: seq<byte>, lastpos: int)
    requires Covers(src, tgt, ctrl, db, eb, |tgt|, lastpos)
    ensures Replays(src, tgt, ctrl, db, eb)
  {
    assert ctrl + [] == ctrl && db + [] == db && eb + [] == eb && tgt[..|tgt|] == tgt;
    forall dry: Dry ensures Replay(src, |tgt|, dry, Playing(ctrl, db, eb, 0, [])) == Ok(tgt) {
      assert Replay(src, |tgt|, dry, Playing(ctrl + [], db + [], eb + [], 0, []))
          == Replay(src, |tgt|, dry, Playing([], [], [], lastpos, tgt[..|tgt|]));
    }
  }

  // ----- the encoder -----

  /** Lines 335-341: append difference and extra bytes. */
  method WriteBlocks(src: seq<byte>, tgt: seq<byte>, lastpos: int, lastscan: int, lenf: int, next: int,
                     db: array<byte>, dblen: int, eb: array<byte>, eblen: int)
    requires db != eb && 0 <= dblen && 0 <= eblen && dblen + eblen == lastscan
    requires db.Length == eb.Length == |tgt| + 1
    requires 0 <= lenf && lastscan + lenf <= next <= |tgt| && 0 <= lastpos && lastpos + lenf <= |src|
    modifies db, eb
    ensures db[..dblen+lenf] == old(db[..dblen]) + Diff(src, lastpos, tgt, lastscan, lenf)
    ensures eb[..eblen+next-(lastscan+lenf)] == old(eb[..eblen]) + tgt[lastscan+lenf..next]
  {
    for i := 0 to lenf
      invariant eb[..] == old(eb[..])
      invariant forall k :: 0 <= k < dblen ==> db[k] == old(db[k])
      invariant forall k :: dblen <= k < dblen + i ==> db[k] == Minus(tgt[lastscan+k-dblen], src[lastpos+k-dblen])
    {
      db[dblen+i] := Minus(tgt[lastscan+i], src[lastpos+i]);
    }
    assert db[..dblen+lenf] == old(db[..dblen]) + Diff(src, lastpos, tgt, lastscan, lenf);
    ghost var filled := db[..];
    for i := 0 to next - (lastscan + lenf)
      invariant db[..] == filled
      invariant forall k :: 0 <= k < eblen ==> eb[k] == old(eb[k])
      invariant forall k :: eblen <= k < eblen + i ==> eb[k] == tgt[lastscan+lenf+k-eblen]
    {
      eb[eblen+i] := tgt[lastscan+lenf+i];
    }
  }

  /**
   Lines 281-362: for every source and target and every index into the source, the loop terminates and
   the streams it writes make a decoder produce exactly the target.
   */
  method EncodeStreams(src: seq<byte>, I: seq<int>, tgt: seq<byte>)
    returns (ctrl: seq<byte>, diff: seq<byte>, extra: seq<byte>)
    requires |src| <= OFF_MAX && |tgt| <= OFF_MAX && Indexes(src, I)
    ensures Replays(src, tgt, ctrl, diff, extra)
  {
    hide Covers, Replay, Diff, Offtout, Matches;
    var db, eb := new byte[|tgt| + 1], new byte[|tgt| + 1];
    var dblen, eblen := 0, 0;
    ctrl := [];
    var scan, len, pos := 0, 0, 0;
    var lastscan, lastpos, lastoffset := 0, 0, 0;
    CoversStart(src, tgt);
    assert db[..0] == [] && eb[..0] == [];
    while scan < |tgt|
      invariant 0 <= len && 0 <= scan <= |tgt| && 0 <= pos <= |src|
      invariant scan < |tgt| ==> scan + len <= |tgt| && lastscan < |tgt|
      invariant scan == |tgt| ==> lastscan == |tgt|
      invariant 0 <= lastscan <= scan && 0 <= lastpos <= |src| && scan + lastoffset >= 0
      invariant 0 <= dblen && 0 <= eblen && dblen + eblen == lastscan
      invariant Covers(src, tgt, ctrl, db[..dblen], eb[..eblen], lastscan, lastpos)
      decreases |tgt| - scan, if len == 0 then 1 else 0
    {
      var oldscore;
      scan, len, pos, oldscore := FindMatch(src, I, tgt, scan + len, len, pos, lastoffset);
      if len != oldscore || scan == |tgt| {
        var lenf := ForwardLen(src, tgt, lastpos, lastscan, scan);
        var lenb := BackwardLen(src, tgt, pos, lastscan, scan);
        lenf, lenb := DivideOverlap(src, tgt, lastpos, lastscan, pos, scan, lenf, lenb);
        var copied := (scan - lenb) - (lastscan + lenf);
        var seek := (pos - lenb) - (lastpos + lenf);
        CoversExtend(src, tgt, ctrl, db[..dblen], eb[..eblen], lastscan, lastpos, lenf, copied, seek);
        WriteBlocks(src, tgt, lastpos, lastscan, lenf, scan - lenb, db, dblen, eb, eblen);
        dblen := dblen + lenf;
        eblen := eblen + copied;
        ctrl := ctrl + (Offtout(lenf) + Offtout(copied) + Offtout(seek));
        lastscan := scan - lenb;
        lastpos := pos - lenb;
        lastoffset := pos - scan;
      }
    }
    diff, extra := db[..dblen], eb[..eblen];
    CoversEnd(src, tgt, ctrl, diff, extra, lastpos);
  }

  // ----- the patch file -----

  /** Wherever `patch` is embedded, decoding it against `src` gives `tgt`. */
  ghost predicate DecodesTo(bz: Bzip, src: seq<byte>, patch: seq<byte>, tgt: seq<byte>) {
    forall pre: seq<byte>, post: seq<byte> :: Decode(bz, src, pre + patch + post, |pre|) == Ok(tgt)
  }

  function PatchHeader(ctrlLen: nat, dataLen: nat, size: nat): (r: seq<byte>)
    ensures |r| == 32
  {
    MAGIC + Offtout(ctrlLen) + Offtout(dataLen) + Offtout(size)
  }

  function PatchFile(bz: Bzip, ctrl: seq<byte>, diff: seq<byte>, extra: seq<byte>, size: nat): (r: seq<byte>) {
    var c, d := bz.compress(ctrl), bz.compress(diff);
    PatchHeader(|c|, |d|, size) + c + d + bz.compress(extra)
  }

  lemma HeaderFields(h: seq<byte>, off: nat, file: seq<byte>, ctrlLen: nat, dataLen: nat, size: nat)
    requires ctrlLen <= OFF_MAX && dataLen <= OFF_MAX && size <= OFF_MAX
    requires h == PatchHeader(ctrlLen, dataLen, size) && off + 32 <= |file| && file[off..off+32] == h
    ensures file[off..off+8] == MAGIC
    ensures Offtin(file[off+8..off+16]) == ctrlLen && Offtin(file[off+16..off+24]) == dataLen
    ensures Offtin(file[off+24..off+32]) == size
  {
    hide Offtin, Offtout;
    OfftinOfftout(ctrlLen);
    OfftinOfftout(dataLen);
    OfftinOfftout(size);
    SubSlice(file, off, 32, 0, 8);
    SubSlice(file, off, 32, 8, 16);
    SubSlice(file, off, 32, 16, 24);
    SubSlice(file, off, 32, 24, 32);
    assert h[..8] == MAGIC && h[8..16] == Offtout(ctrlLen) && h[16..24] == Offtout(dataLen) && h[24..32]
        == Offtout(size);
  }

  /** Streams that replay to the target make a patch file that decodes to it, anywhere in a larger file. */
  lemma PatchFileDecodes(bz: Bzip, src: seq<byte>, tgt: seq<byte>, ctrl: seq<byte>, diff: seq<byte>, extra: seq<byte>)
    requires bz.Lossless() && |tgt| <= OFF_MAX
    requires Replays(src, tgt, ctrl, diff, extra)
    requires |PatchFile(bz, ctrl, diff, extra, |tgt|)| <= OFF_MAX
    ensures DecodesTo(bz, src, PatchFile(bz, ctrl, diff, extra, |tgt|), tgt)
  {
    forall pre: seq<byte>, post: seq<byte>
      ensures Decode(bz, src, pre + PatchFile(bz, ctrl, diff, extra, |tgt|) + post, |pre|) == Ok(tgt)
    {
      EmbeddedDecodes(bz, src, tgt, ctrl, diff, extra, pre, post);
    }
  }

  lemma EmbeddedDecodes(bz: Bzip, src: seq<byte>, tgt: seq<byte>, ctrl: seq<byte>, diff: seq<byte>, extra: seq<byte>,
                        pre: seq<byte>, post: seq<byte>)
    requires bz.Lossless() && |tgt| <= OFF_MAX
    requires Replays(src, tgt, ctrl, diff, extra)
    requires |PatchFile(bz, ctrl, diff, extra, |tgt|)| <= OFF_MAX
    ensures Decode(bz, src, pre + PatchFile(bz, ctrl, diff, extra, |tgt|) + post, |pre|) == Ok(tgt)
  {
    hide Replay, Offtin, Offtout;
    var c, d, e := bz.compress(ctrl), bz.compress(diff), bz.compress(extra);
    var h := PatchHeader(|c|, |d|, |tgt|);
    var file := pre + PatchFile(bz, ctrl, diff, extra, |tgt|) + post;
    var start := |pre| + 32;
    assert file == pre + h + c + d + e + post;
    assert file[|pre|..start] == h;
    HeaderFields(h, |pre|, file, |c|, |d|, |tgt|);
    assert file[start..start+|c|] == c + [];
    assert file[start+|c|..start+|c|+|d|] == d + [];
    assert file[start+|c|+|d|..] == e + post;
    assert bz.decompress(c + []) == ctrl && bz.decompress(d + []) == diff && bz.decompress(e + post) == extra;
    assert ParseHeader(file, |pre|) == Ok(Blocks(c + [], d + [], e + post, |tgt|));
  }

  /**
   bsdiff: sort the source's suffixes unless the caller has kept the result of an earlier call on the
   same source, encode, and lay out the patch.
   */
  method Bsdiff(bz: Bzip, src: seq<byte>, cached: Option<seq<int>>, tgt: seq<byte>)
    returns (patch: seq<byte>, index: seq<int>)
    requires bz.Lossless() && |src| <= OFF_MAX && |tgt| <= OFF_MAX
    requires cached.Some? ==> Indexes(src, cached.value)
    ensures |patch| <= OFF_MAX ==> DecodesTo(bz, src, patch, tgt)
    ensures Indexes(src, index) && (cached.Some? ==> index == cached.value)
    ensures (cached.None? ==> SuffixArray(src, index))
  {
    match cached {
      case Some(I) =>
        index := I;
      case None =>
        var I, V := new int[|src| + 1], new int[|src| + 1];
        Qsufsort(I, V, src);
        index := I[..];
    }
    var ctrl, diff, extra := EncodeStreams(src, index, tgt);
    patch := PatchFile(bz, ctrl, diff, extra, |tgt|);
    if |patch| <= OFF_MAX {
      PatchFileDecodes(bz, src, tgt, ctrl, diff, extra);
    }
  }
}
