/**
 qsufsort as a whole: bucket sort, then passes that double the number of bytes looked at
 until every suffix is alone in its group.
 */
module QSufSort {
  import opened Bytes
  import opened SuffixOrder
  import opened SuffixBuckets
  import opened SuffixSort

  /** `I` lists every suffix of `s`, the empty one included, in increasing order. */
  ghost predicate SuffixArray(s: seq<byte>, I: seq<int>) {
    && |I| == |s| + 1
    && (forall k :: 0 <= k < |I| ==> 0 <= I[k] <= |s|)
    && (forall a :: 0 <= a <= |s| ==> a in I)
    && (forall j, k :: 0 <= j < k < |I| ==> SuffixLess(s, I[j], I[k]))
  }

  /** Index `k` shows its suffix, or starts a run of sorted indices of the stated length. */
  ghost predicate Runs(n: int, I: seq<int>, V: seq<int>, J: seq<int>, k: int, h: nat)
    requires 0 <= k < |I| == |J|
  {
    if I[k] >= 0 then I[k] == J[k] && J[k] + h <= n
    else k - I[k] <= |I| && forall m :: k <= m < k - I[k] ==> I[m] < 0 && Lone(V, J[m])
  }

  ghost predicate AllRuns(n: int, I: seq<int>, V: seq<int>, J: seq<int>, lo: int, hi: int, h: nat) {
    |I| == |V| == |J| && 0 <= lo <= hi <= |I| && forall k :: lo <= k < hi ==> Runs(n, I, V, J, k, h)
  }

  // ----- lines 136-137 -----

  lemma BucketOfSlot(s: seq<byte>, a: nat, c: int)
    requires a < |s| && 0 <= c
    requires || Smaller(s, c, |s|) < Slot(s, a) <= Smaller(s, c + 1, |s|)
             || Rank(s, a) == Smaller(s, c + 1, |s|) > Smaller(s, c, |s|)
    ensures s[a] == c
  {
    SlotBounds(s, a);
    if s[a] < c {
      SmallerMonotone(s, s[a] as int + 1, c, |s|);
    } else if s[a] > c {
      SmallerMonotone(s, c + 1, s[a], |s|);
    }
  }

  lemma SingleBucketLone(s: seq<byte>, J: seq<int>, P: seq<int>, V: seq<int>, c: int)
    requires Bucketed(s, J, P, V) && Inverse(J, P) && 0 <= c < 256
    requires Smaller(s, c + 1, |s|) == Smaller(s, c, |s|) + 1 <= |s|
    ensures Lone(V, J[Smaller(s, c + 1, |s|)])
  {
    hide Smaller, Slot;
    var k := Smaller(s, c + 1, |s|);
    var a := J[k];
    assert P[a] == k == Slot(s, a);
    assert a != |s| by { EmptyFirst(s); }
    BucketOfSlot(s, a, c);
    forall b | 0 <= b < |V| && V[b] == V[a]
      ensures b == a
    {
      assert b != |s|;
      BucketOfSlot(s, b, c);
      SlotBounds(s, b);
      if b != a {
        SlotInjective(s, a, b);
      }
    }
  }

  lemma EmptyFirst(s: seq<byte>)
    ensures Slot(s, |s|) == 0
  {
  }

  lemma EmptyLone(s: seq<byte>, J: seq<int>, P: seq<int>, V: seq<int>)
    requires Bucketed(s, J, P, V)
    ensures J[0] == |s| && Lone(V, |s|)
  {
    assert P[|s|] == 0;
    forall b | 0 <= b < |V| && V[b] == V[|s|]
      ensures b == |s|
    {
      if b < |s| {
        SlotBounds(s, b);
      }
    }
  }

  /** Lines 136-137: mark the buckets of one suffix (bucket 0 is skipped) and the empty suffix. */
  method MarkBuckets(s: seq<byte>, I: array<int>, ghost V: seq<int>, buckets: array<int>, ghost P: seq<int>)
    requires I != buckets && I.Length == |s| + 1 && buckets.Length == 256
    requires Bucketed(s, I[..], P, V)
    requires forall c :: 0 <= c < 256 ==> buckets[c] == Smaller(s, c + 1, |s|)
    modifies I
    ensures AllRuns(|s|, I[..], V, old(I[..]), 0, |s| + 1, 1)
    ensures I[0] == -1
  {
    hide Smaller, Bucketed;
    ghost var J := I[..];
    BucketedInverse(s, J, P, V);
    EmptyLone(s, J, P, V);
    BucketedLength(s, J, P, V);
    for i := 1 to 256
      invariant forall k :: 0 <= k <= |s| ==> I[k] == J[k] || (I[k] == -1 && Lone(V, J[k]))
    {
      if buckets[i] == buckets[i-1] + 1 {
        SmallerMonotone(s, i + 1, 256, |s|);
        SmallerEnds(s, |s|);
        assert buckets[i-1] == Smaller(s, i - 1 + 1, |s|);
        SingleBucketLone(s, J, P, V, i);
        I[buckets[i]] := -1;
      }
    }
    I[0] := -1;
  }

  lemma BucketedLength(s: seq<byte>, J: seq<int>, P: seq<int>, V: seq<int>)
    requires Bucketed(s, J, P, V)
    ensures |J| == |P| == |V| == |s| + 1
  {
  }

  // ----- one pass: lines 140-153 -----

  /** Indices below `i` are ordered by `2*h` bytes, the last `len` of them are a run being collected. */
  ghost predicate Passing(s: seq<byte>, I: seq<int>, V: seq<int>, J: seq<int>, P: seq<int>, h: nat, i: int, len: int) {
    && State(s, V, J, P, h) && |I| == |V| && 0 <= len <= i <= |V|
    && Group(V, P, i, i - 1) && Deep(s, V, P, 0, i, 2 * h)
    && AllRuns(|s|, I, V, J, 0, i, 2 * h) && AllRuns(|s|, I, V, J, i, |V|, h)
    && (forall m :: i - len <= m < i ==> I[m] < 0 && Lone(V, J[m]))
  }

  /** A suffix alone in its group has its own index as rank. */
  lemma LoneRank(V: seq<int>, J: seq<int>, P: seq<int>, a: int)
    requires Inverse(J, P) && Ranked(V, P) && Lone(V, a)
    ensures V[a] == P[a]
  {
    var b := J[V[a]];
    assert P[b] == V[a];
  }

  lemma PassStart(s: seq<byte>, I: seq<int>, V: seq<int>, J: seq<int>, P: seq<int>, h: nat)
    requires State(s, V, J, P, h) && AllRuns(|s|, I, V, J, 0, |s| + 1, h)
    ensures Passing(s, I, V, J, P, h, 0, 0)
  {
  }

  /** Lines 142-144. */
  lemma PassSkip(s: seq<byte>, I: seq<int>, V: seq<int>, J: seq<int>, P: seq<int>, h: nat, i: int, len: int)
    requires Passing(s, I, V, J, P, h, i, len) && i < |V| && I[i] < 0
    ensures Passing(s, I, V, J, P, h, i - I[i], len - I[i])
  {
    assert Runs(|s|, I, V, J, i, h);
    var i2 := i - I[i];
    forall a | 0 <= a < |P| && P[a] < i2
      ensures V[a] < i2 && (i <= P[a] ==> Lone(V, a))
    {
      if i <= P[a] {
        assert J[P[a]] == a;
        LoneRank(V, J, P, a);
      }
    }
    forall k | 0 <= k < i2
      ensures Runs(|s|, I, V, J, k, 2 * h)
    {
      if i <= k {
        assert Runs(|s|, I, V, J, k, h);
      }
    }
  }

  /** Lines 146 and 153. */
  lemma PassClose(s: seq<byte>, I: seq<int>, I2: seq<int>, V: seq<int>, J: seq<int>, P: seq<int>, h: nat, i: int,
                  len: int)
    requires Passing(s, I, V, J, P, h, i, len)
    requires I2 == if len != 0 then I[i - len := -len] else I
    ensures Passing(s, I2, V, J, P, h, i, 0)
  {
    forall k | 0 <= k < i
      ensures Runs(|s|, I2, V, J, k, 2 * h)
    {
      assert Runs(|s|, I, V, J, k, 2 * h);
    }
    forall k | i <= k < |I|
      ensures Runs(|s|, I2, V, J, k, h)
    {
      assert Runs(|s|, I, V, J, k, h);
    }
  }

  /** Lines 147-148: the group that starts at `i` is ready to be split. */
  lemma PassGroup(s: seq<byte>, I: seq<int>, V: seq<int>, J: seq<int>, P: seq<int>, h: nat, i: int)
    requires Passing(s, I, V, J, P, h, i, 0) && i < |V| && I[i] >= 0
    ensures 0 <= I[i] == J[i] < |V| && i <= V[J[i]] < |V|
    ensures Ready(s, I, V, J, P, h, i, V[J[i]] + 1, V[J[i]])
  {
    assert Runs(|s|, I, V, J, i, h);
    var g := V[J[i]];
    assert P[J[i]] == i;
    assert Group(V, P, i, g);
    forall k | i <= k <= g
      ensures I[k] == J[k] && J[k] + h <= |s|
    {
      assert Runs(|s|, I, V, J, k, h);
      assert P[J[k]] == k;
      if I[k] < 0 {
        assert Lone(V, J[k]);
        assert J[i] == J[k];
      }
    }
    forall a | 0 <= a < |P| && i <= P[a] < g + 1
      ensures a + h <= |s|
    {
      assert J[P[a]] == a;
    }
  }

  lemma LoneKept(V: seq<int>, V2: seq<int>, J: seq<int>, P: seq<int>, J2: seq<int>, P2: seq<int>, lo: int, e: int,
                 g: int, a: int)
    requires Ranked(V, P) && Ranked(V2, P2) && Rearranged(J, P, J2, P2, lo, e) && Group(V2, P2, e, g)
    requires Group(V, P, lo, g) && e == g + 1
    requires forall b :: 0 <= b < |V| && !(lo <= P[b] < e) ==> V2[b] == V[b]
    requires Lone(V, a) && !(lo <= P[a] < e)
    ensures Lone(V2, a)
  {
    assert forall b :: 0 <= b < |V| && lo <= P[b] < e ==> lo <= P2[b] <= V2[b] < e;
  }

  lemma PassSplit(s: seq<byte>, I: seq<int>, V: seq<int>, J: seq<int>, P: seq<int>,
                  I2: seq<int>, V2: seq<int>, J2: seq<int>, P2: seq<int>, h: nat, i: int, g: int)
    requires Passing(s, I, V, J, P, h, i, 0) && Ready(s, I, V, J, P, h, i, g + 1, g)
    requires SoFar(s, I, V, J, P, I2, V2, J2, P2, h, i, g + 1, g + 1, g)
    ensures Passing(s, I2, V2, J2, P2, h, g + 1, 0)
  {
    hide SuffixLess, SharePrefix;
    forall a, b | 0 <= a < |P2| && 0 <= b < |P2| && a != b && 0 <= P2[a] < g + 1 && 0 <= P2[b] < g + 1 && V2[a] == V2[b]
      ensures SharePrefix(s, a, b, 2 * h)
    {
      if P2[a] < i {
        assert P[a] == P2[a];
        assert V2[a] < i;
        assert P[b] == P2[b] < i;
      } else {
        assert P2[b] >= i;
      }
    }
    forall k | 0 <= k < g + 1
      ensures Runs(|s|, I2, V2, J2, k, 2 * h)
    {
      if k < i {
        RunsKept(s, I, V, J, P, I2, V2, J2, P2, h, 2 * h, i, g, k);
      } else {
        assert Marked(|s|, I2, V2, J2, k, 2 * h);
      }
    }
    forall k | g + 1 <= k < |I2|
      ensures Runs(|s|, I2, V2, J2, k, h)
    {
      RunsKept(s, I, V, J, P, I2, V2, J2, P2, h, h, i, g, k);
    }
  }

  /** Splitting the group `i..g` does not disturb the marks outside it. */
  lemma RunsKept(s: seq<byte>, I: seq<int>, V: seq<int>, J: seq<int>, P: seq<int>,
                 I2: seq<int>, V2: seq<int>, J2: seq<int>, P2: seq<int>, h: nat, hh: nat, i: int, g: int, k: int)
    requires SoFar(s, I, V, J, P, I2, V2, J2, P2, h, i, g + 1, g + 1, g) && Ready(s, I, V, J, P, h, i, g + 1, g)
    requires 0 <= k < |I| == |J| && !(i <= k <= g) && Runs(|s|, I, V, J, k, hh)
    ensures Runs(|s|, I2, V2, J2, k, hh)
  {
    hide Deep, Ordered, Refined, Below, Done;
    if I[k] < 0 {
      forall m | k <= m < k - I[k]
        ensures I2[m] < 0 && Lone(V2, J2[m])
      {
        assert I[m] < 0 && Lone(V, J[m]);
        assert !(i <= m <= g);
        assert P[J[m]] == m;
        LoneKept(V, V2, J, P, J2, P2, i, g + 1, g, J[m]);
      }
    }
  }

  lemma PassEnd(s: seq<byte>, I: seq<int>, V: seq<int>, J: seq<int>, P: seq<int>, h: nat)
    requires Passing(s, I, V, J, P, h, |s| + 1, 0)
    ensures State(s, V, J, P, 2 * h) && AllRuns(|s|, I, V, J, 0, |s| + 1, 2 * h)
  {
    assert forall a :: 0 <= a < |P| ==> 0 <= P[a] < |s| + 1;
  }

  lemma PassBounds(s: seq<byte>, I: seq<int>, V: seq<int>, J: seq<int>, P: seq<int>, h: nat, i: int, len: int)
    requires Passing(s, I, V, J, P, h, i, len)
    ensures |V| == |s| + 1 == |I| == |J| && 0 <= len <= i <= |s| + 1
    ensures i < |s| + 1 && I[i] < 0 ==> i - I[i] <= |s| + 1
    ensures i < |s| + 1 && |s| < h ==> I[i] < 0
  {
    if i < |s| + 1 {
      assert Runs(|s|, I, V, J, i, h);
    }
  }

  /** Lines 140-153: one pass over the groups; afterwards all suffixes are ordered by `2*h` bytes. */
  method Pass(ghost s: seq<byte>, I: array<int>, V: array<int>, h: nat, ghost J: seq<int>, ghost P: seq<int>)
    returns (ghost J2: seq<int>, ghost P2: seq<int>)
    requires I != V && I.Length == V.Length == |s| + 1
    requires State(s, V[..], J, P, h) && AllRuns(|s|, I[..], V[..], J, 0, |s| + 1, h)
    modifies I, V
    ensures State(s, V[..], J2, P2, 2 * h) && AllRuns(|s|, I[..], V[..], J2, 0, |s| + 1, 2 * h)
    ensures |s| < h ==> I[0] == -(|s| + 1)
  {
    hide State, AllRuns, Passing, Ready, SoFar;
    J2, P2 := J, P;
    PassStart(s, I[..], V[..], J, P, h);
    var i, len := 0, 0;
    while i < I.Length
      invariant 0 <= len <= i <= I.Length
      invariant Passing(s, I[..], V[..], J2, P2, h, i, len)
      invariant |s| < h ==> len == i
      decreases I.Length - i
    {
      PassBounds(s, I[..], V[..], J2, P2, h, i, len);
      if I[i] < 0 {
        PassSkip(s, I[..], V[..], J2, P2, h, i, len);
        len := len - I[i];
        i := i - I[i];
      } else {
        ghost var I0 := I[..];
        if len != 0 {
          I[i-len] := -len;
        }
        PassClose(s, I0, I[..], V[..], J2, P2, h, i, len);
        PassGroup(s, I[..], V[..], J2, P2, h, i);
        len := V[I[i]] + 1 - i;
        ghost var I1, V1, J1, P1 := I[..], V[..], J2, P2;
        J2, P2 := Split(s, I, V, i, len, h, J1, P1, i + len - 1);
        PassSplit(s, I1, V1, J1, P1, I[..], V[..], J2, P2, h, i, i + len - 1);
        i := i + len;
        len := 0;
      }
    }
    ghost var I0 := I[..];
    if len != 0 {
      I[i-len] := -len;
    }
    PassClose(s, I0, I[..], V[..], J2, P2, h, i, len);
    PassEnd(s, I[..], V[..], J2, P2, h);
  }

  lemma AllLone(s: seq<byte>, I: seq<int>, V: seq<int>, J: seq<int>, P: seq<int>, h: nat)
    requires State(s, V, J, P, h) && AllRuns(|s|, I, V, J, 0, |s| + 1, h) && I[0] == -(|s| + 1)
    ensures V == P && SuffixArray(s, J)
  {
    assert Runs(|s|, I, V, J, 0, h);
    forall a | 0 <= a < |V|
      ensures V[a] == P[a]
    {
      assert J[P[a]] == a;
      LoneRank(V, J, P, a);
    }
    forall a | 0 <= a <= |s|
      ensures a in J
    {
      assert J[P[a]] == a;
    }
    forall j, k | 0 <= j < k < |J|
      ensures SuffixLess(s, J[j], J[k])
    {
      assert P[J[j]] == j && P[J[k]] == k;
    }
  }

  lemma StateInverse(s: seq<byte>, V: seq<int>, J: seq<int>, P: seq<int>, h: nat)
    requires State(s, V, J, P, h)
    ensures Inverse(J, P) && |J| == |P| == |V| == |s| + 1
  {
  }

  /** Lines 126-137. */
  method SortByFirstByte(s: seq<byte>, I: array<int>, V: array<int>) returns (ghost J: seq<int>, ghost P: seq<int>)
    requires I != V && I.Length == V.Length == |s| + 1
    modifies I, V
    ensures State(s, V[..], J, P, 1) && AllRuns(|s|, I[..], V[..], J, 0, |s| + 1, 1)
  {
    hide Bucketed, Smaller;
    var buckets := BucketStarts(s);
    FillBuckets(s, I, buckets);
    P := RankBuckets(s, I, V, buckets);
    J := I[..];
    ghost var W := V[..];
    BucketedState(s, J, P, W);
    MarkBuckets(s, I, W, buckets, P);
    assert V[..] == W;
  }

  /**
   For every byte string, qsufsort terminates, stays within its arrays, and leaves in `I`
   all suffixes in increasing order.
   */
  method Qsufsort(I: array<int>, V: array<int>, s: seq<byte>)
    requires I != V && I.Length == V.Length == |s| + 1
    modifies I, V
    ensures SuffixArray(s, I[..])
  {
    hide State, AllRuns, SuffixArray, Inverse;
    ghost var J, P := SortByFirstByte(s, I, V);
    var h := 1;
    while I[0] != -(|s| + 1)
      invariant h >= 1 && State(s, V[..], J, P, h) && AllRuns(|s|, I[..], V[..], J, 0, |s| + 1, h)
      decreases if I[0] == -(|s| + 1) then 0 else if h <= |s| then 2 + |s| - h else 1
    {
      J, P := Pass(s, I, V, h, J, P);
      h := h + h;
    }
    AllLone(s, I[..], V[..], J, P, h);
    WriteBack(s, I, V, h, J, P);
  }

  /** Line 156: invert the ranks. */
  method WriteBack(ghost s: seq<byte>, I: array<int>, V: array<int>, ghost h: nat, ghost J: seq<int>, ghost P: seq<int>)
    requires I != V && I.Length == V.Length == |s| + 1 && State(s, V[..], J, P, h) && V[..] == P
    modifies I
    ensures I[..] == J
  {
    StateInverse(s, V[..], J, P, h);
    hide State;
    for i := 0 to I.Length
      invariant forall a :: 0 <= a < i ==> I[P[a]] == a
    {
      I[V[i]] := i;
    }
    forall k | 0 <= k < |J|
      ensures I[k] == J[k]
    {
      assert I[P[J[k]]] == J[k];
    }
  }
}
