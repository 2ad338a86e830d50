/**
 The Larsson-Sadakane suffix sort of bsdiff.c: `split` and `qsufsort`.

 `I` holds the suffixes being sorted and `V` the rank of each suffix.  Once a suffix
 is alone in its group its entry of `I` is overwritten by a negative run length, so
 the permutation that `I` stands for is carried in the ghost sequence `J` (with its
 inverse `P`).
 */
module SuffixSort {
  import opened Bytes
  import opened SuffixOrder

  // ----- counting keys -----

  /** The sort key of index `k`: the rank of the suffix `h` bytes further on. */
  ghost predicate Keyed(V: seq<int>, J: seq<int>, h: nat, lo: int, e: int) {
    0 <= lo <= e <= |J| && forall k :: lo <= k < e ==> 0 <= J[k] && J[k] + h < |V|
  }

  /** Number of indices in `lo..e-1` whose key compares to `x` as `c` says (-1 below, 0 equal, 1 above). */
  ghost function Count(V: seq<int>, J: seq<int>, h: nat, lo: int, e: int, x: int, c: int): nat
    requires Keyed(V, J, h, lo, e)
    decreases e - lo
  {
    if lo == e then 0
    else Count(V, J, h, lo, e - 1, x, c) + (if Compare(V[J[e-1]+h], x) == c then 1 else 0)
  }

  function Compare(y: int, x: int): (c: int) {
    if y < x then -1 else if y == x then 0 else 1
  }

  lemma {:induction false} CountSplit(V: seq<int>, J: seq<int>, h: nat, lo: int, m: int, e: int, x: int, c: int)
    requires Keyed(V, J, h, lo, e) && lo <= m <= e
    ensures Count(V, J, h, lo, e, x, c) == Count(V, J, h, lo, m, x, c) + Count(V, J, h, m, e, x, c)
    decreases e - m
  {
    if m < e {
      CountSplit(V, J, h, lo, m, e - 1, x, c);
    }
  }

  lemma {:induction false} CountSame(V: seq<int>, J: seq<int>, J2: seq<int>, h: nat, lo: int, e: int, x: int, c: int)
    requires Keyed(V, J, h, lo, e) && |J2| == |J| && forall k :: lo <= k < e ==> J2[k] == J[k]
    ensures Count(V, J2, h, lo, e, x, c) == Count(V, J, h, lo, e, x, c)
    decreases e - lo
  {
    if lo < e {
      CountSame(V, J, J2, h, lo, e - 1, x, c);
    }
  }

  lemma {:induction false} CountAll(V: seq<int>, J: seq<int>, h: nat, lo: int, e: int, x: int, c: int, d: int)
    requires Keyed(V, J, h, lo, e) && forall k :: lo <= k < e ==> Compare(V[J[k]+h], x) == d
    ensures Count(V, J, h, lo, e, x, c) == if c == d then e - lo else 0
    decreases e - lo
  {
    if lo < e {
      CountAll(V, J, h, lo, e - 1, x, c, d);
    }
  }

  lemma {:induction false} CountTotal(V: seq<int>, J: seq<int>, h: nat, lo: int, e: int, x: int)
    requires Keyed(V, J, h, lo, e)
    ensures Count(V, J, h, lo, e, x, -1) + Count(V, J, h, lo, e, x, 0) + Count(V, J, h, lo, e, x, 1) == e - lo
    decreases e - lo
  {
    if lo < e {
      CountTotal(V, J, h, lo, e - 1, x);
    }
  }

  /** When none is counted, none compares that way. */
  lemma {:induction false} CountNone(V: seq<int>, J: seq<int>, h: nat, lo: int, e: int, x: int, c: int)
    requires Keyed(V, J, h, lo, e) && Count(V, J, h, lo, e, x, c) == 0
    ensures forall k :: lo <= k < e ==> Compare(V[J[k]+h], x) != c
    decreases e - lo
  {
    if lo < e {
      CountNone(V, J, h, lo, e - 1, x, c);
    }
  }

  ghost function Hit(V: seq<int>, J: seq<int>, h: nat, p: int, x: int, c: int): int
    requires 0 <= p < |J| && Keyed(V, J, h, p, p + 1)
  {
    if Compare(V[J[p]+h], x) == c then 1 else 0
  }

  lemma CountAround(V: seq<int>, J: seq<int>, h: nat, lo: int, p: int, e: int, x: int, c: int)
    requires Keyed(V, J, h, lo, e) && lo <= p < e
    ensures Count(V, J, h, lo, e, x, c) == Count(V, J, h, lo, p, x, c) + Hit(V, J, h, p, x, c)
        + Count(V, J, h, p + 1, e, x, c)
  {
    CountSplit(V, J, h, lo, p + 1, e, x, c);
  }

  lemma CountSwap(V: seq<int>, J: seq<int>, h: nat, lo: int, e: int, p: int, q: int, x: int, c: int)
    requires Keyed(V, J, h, lo, e) && lo <= p < q < e
    ensures Keyed(V, SwapJ(J, p, q), h, lo, e)
    ensures Count(V, SwapJ(J, p, q), h, lo, e, x, c) == Count(V, J, h, lo, e, x, c)
  {
    var K := SwapJ(J, p, q);
    CountAround(V, J, h, lo, p, e, x, c);
    CountAround(V, J, h, p + 1, q, e, x, c);
    CountAround(V, K, h, lo, p, e, x, c);
    CountAround(V, K, h, p + 1, q, e, x, c);
    CountSame(V, J, K, h, lo, p, x, c);
    CountSame(V, J, K, h, p + 1, q, x, c);
    CountSame(V, J, K, h, q + 1, e, x, c);
  }

  // ----- the pieces of split -----

  /** Entries `lo..e-1` of `I` are the permutation's own entries. */
  ghost predicate Shows(I: seq<int>, J: seq<int>, lo: int, e: int) {
    |I| == |J| && 0 <= lo <= e <= |J| && forall k :: lo <= k < e ==> I[k] == J[k]
  }

  /** Exchange two entries of the part `lo..e-1` that is being rearranged. */
  method ExchangeInside(I: array<int>, x: int, y: int, ghost J0: seq<int>, ghost P0: seq<int>, ghost J: seq<int>,
                        ghost P: seq<int>,
                        ghost lo: int, ghost e: int)
    returns (ghost J2: seq<int>, ghost P2: seq<int>)
    requires Rearranged(J0, P0, J, P, lo, e) && I.Length == |J| == |J0| && 0 <= lo <= x < e <= |J| && lo <= y < e
    requires forall m :: lo <= m < e ==> I[m] == J[m]
    modifies I
    ensures Rearranged(J0, P0, J2, P2, lo, e) && J2 == SwapJ(J, x, y) && |J2| == |J0|
    ensures forall m :: lo <= m < e ==> I[m] == J2[m]
    ensures forall m :: 0 <= m < I.Length && !(lo <= m < e) ==> I[m] == old(I[m])
  {
    hide Rearranged;
    RearrangedInverse(J0, P0, J, P, lo, e);
    RearrangedSwap(J0, P0, J, P, x, y, lo, e);
    J2, P2 := SwapJ(J, x, y), SwapP(J, P, x, y);
    var tmp := I[x];
    I[x] := I[y];
    I[y] := tmp;
  }

  lemma RearrangedInverse(J0: seq<int>, P0: seq<int>, J: seq<int>, P: seq<int>, lo: int, e: int)
    requires Rearranged(J0, P0, J, P, lo, e)
    ensures Inverse(J, P)
  {
  }

  /** Within `k..k+i-1` the first `j` keys are `x` and the rest are larger. */
  ghost predicate Gathered(W: seq<int>, J: seq<int>, h: nat, k: int, j: int, i: int, x: int) {
    && 0 <= k && 0 <= j <= i && Keyed(W, J, h, k, k + i)
    && (forall m :: k <= m < k + j ==> W[J[m]+h] == x)
    && (forall m :: k + j <= m < k + i ==> x < W[J[m]+h])
  }

  lemma GatherSmaller(W: seq<int>, J: seq<int>, h: nat, k: int, j: int, i: int, x: int, y: int)
    requires Gathered(W, J, h, k, j, i, x) && y < x
    ensures Gathered(W, J, h, k, 0, i, y)
  {
  }

  lemma GatherLarger(W: seq<int>, J: seq<int>, h: nat, k: int, j: int, i: int, x: int)
    requires Gathered(W, J, h, k, j, i, x) && Keyed(W, J, h, k, k + i + 1) && x < W[J[k+i]+h]
    ensures Gathered(W, J, h, k, j, i + 1, x)
  {
  }

  lemma GatherEqual(W: seq<int>, J: seq<int>, h: nat, k: int, j: int, i: int, x: int)
    requires Gathered(W, J, h, k, j, i, x) && Keyed(W, J, h, k, k + i + 1) && W[J[k+i]+h] == x
    ensures Gathered(W, SwapJ(J, k + j, k + i), h, k, j + 1, i + 1, x)
  {
  }

  /** Lines 66-76: gather the smallest key of `k..e-1` at the front; `j` entries have it. */
  method GatherSmallest(I: array<int>, V: array<int>, h: nat, k: int, e: int, ghost J: seq<int>, ghost P: seq<int>)
    returns (j: int, ghost x: int, ghost J2: seq<int>, ghost P2: seq<int>)
    requires I != V && I.Length == V.Length == |J| && 0 <= k < e <= I.Length
    requires Inverse(J, P) && Keyed(V[..], J, h, k, e)
    requires forall m :: k <= m < e ==> I[m] == J[m]
    modifies I
    ensures 0 < j <= e - k
    ensures Rearranged(J, P, J2, P2, k, e) && |J2| == |J|
    ensures forall m :: k <= m < e ==> I[m] == J2[m]
    ensures forall m :: 0 <= m < I.Length && !(k <= m < e) ==> I[m] == old(I[m])
    ensures Gathered(V[..], J2, h, k, j, e - k, x)
  {
    hide Rearranged, Inverse, Gathered;
    RearrangedRefl(J, P, k, e);
    j := 1;
    J2, P2 := J, P;
    var y := V[I[k]+h];
    var i := 1;
    ghost var W := V[..];
    GatherFirst(W, J, h, k, y);
    while k + i < e
      invariant 1 <= i <= e - k && 0 < j <= i && V[..] == W
      invariant Rearranged(J, P, J2, P2, k, e) && |J2| == |J|
      invariant forall m :: k <= m < e ==> I[m] == J2[m]
      invariant forall m :: 0 <= m < I.Length && !(k <= m < e) ==> I[m] == old(I[m])
      invariant Keyed(W, J2, h, k, e) && Gathered(W, J2, h, k, j, i, y)
    {
      var z := V[I[k+i]+h];
      if z < y {
        GatherSmaller(W, J2, h, k, j, i, y, z);
        y := z;
        j := 0;
      }
      if z == y {
        GatherEqual(W, J2, h, k, j, i, y);
        J2, P2 := ExchangeInside(I, k + j, k + i, J, P, J2, P2, k, e);
        j := j + 1;
      } else {
        GatherLarger(W, J2, h, k, j, i, y);
      }
      i := i + 1;
    }
    x := y;
  }

  lemma GatherFirst(W: seq<int>, J: seq<int>, h: nat, k: int, x: int)
    requires Keyed(W, J, h, k, k + 1) && W[J[k]+h] == x
    ensures Gathered(W, J, h, k, 1, 1, x)
  {
  }

  /** Lines 77 and 115: every suffix at an index in `lo..hi-1` gets rank `hi-1`. */
  method SetRanks(I: array<int>, V: array<int>, lo: int, hi: int, ghost J: seq<int>, ghost P: seq<int>)
    requires I != V && I.Length == V.Length && 0 <= lo <= hi <= I.Length
    requires Inverse(J, P) && Shows(I[..], J, lo, hi)
    modifies V
    ensures forall a :: 0 <= a < V.Length ==> V[a] == if lo <= P[a] < hi then hi - 1 else old(V[a])
  {
    var i := 0;
    while i < hi - lo
      invariant 0 <= i <= hi - lo
      invariant forall a :: 0 <= a < V.Length ==> V[a] == if lo <= P[a] < lo + i then hi - 1 else old(V[a])
    {
      V[I[lo+i]] := hi - 1;
      i := i + 1;
    }
  }

  // ----- what a finished part of the array looks like -----

  /** No other suffix has the rank of `a`. */
  ghost predicate Lone(V: seq<int>, a: int) {
    0 <= a < |V| && forall b :: 0 <= b < |V| && V[b] == V[a] ==> b == a
  }

  /** Index `m` is marked as sorted, or still shows a suffix that has `h` bytes. */
  ghost predicate Marked(n: int, I: seq<int>, V: seq<int>, J: seq<int>, m: int, h: nat)
    requires 0 <= m < |I| && |J| == |I|
  {
    (I[m] == -1 && Lone(V, J[m])) || (I[m] == J[m] && J[m] + h <= n)
  }

  /** Indices `lo..hi-1` are ordered by their first `h` bytes and marked accordingly. */
  ghost predicate Done(s: seq<byte>, I: seq<int>, V: seq<int>, J: seq<int>, P: seq<int>, lo: int, hi: int, h: nat) {
    && |I| == |V| == |J| == |P| && 0 <= lo <= hi <= |J|
    && Deep(s, V, P, lo, hi, h)
    && (forall m :: lo <= m < hi ==> Marked(|s|, I, V, J, m, h))
  }

  /** Every suffix at an index in `lo..e-1` has at least `h` bytes. */
  ghost predicate Fits(n: int, P: seq<int>, lo: int, e: int, h: nat) {
    forall a :: 0 <= a < |P| && lo <= P[a] < e ==> a + h <= n
  }

  /** All suffixes at indices in `lo..e-1` share their first `h` bytes. */
  ghost predicate Pairs(s: seq<byte>, P: seq<int>, lo: int, e: int, h: nat) {
    forall a, b {:trigger SharePrefix(s, a, b, h)} ::
      0 <= a < |P| && 0 <= b < |P| && a != b && lo <= P[a] < e && lo <= P[b] < e ==> SharePrefix(s, a, b, h)
  }

  /** Two neighbouring finished parts make one. */
  lemma DoneExtend(s: seq<byte>, I: seq<int>, V: seq<int>, J: seq<int>, P: seq<int>,
                   I2: seq<int>, V2: seq<int>, J2: seq<int>, P2: seq<int>, lo: int, m: int, hi: int, e: int, h: nat)
    requires Done(s, I, V, J, P, lo, m, h) && Done(s, I2, V2, J2, P2, m, hi, h) && hi <= e
    requires |I2| == |I| && Inverse(J, P) && Ranked(V2, P2)
    requires Rearranged(J, P, J2, P2, m, e)
    requires forall k :: lo <= k < m ==> I2[k] == I[k]
    requires forall a :: 0 <= a < |P| && P[a] < m ==> V2[a] == V[a] < m
    ensures Done(s, I2, V2, J2, P2, lo, hi, h)
  {
    forall a, b | 0 <= a < |P2| && 0 <= b < |P2| && a != b && lo <= P2[a] < hi && lo <= P2[b] < hi && V2[a] == V2[b]
      ensures SharePrefix(s, a, b, h)
    {
      if P2[a] < m {
        assert P2[b] < m;
        assert P[a] == P2[a] && P[b] == P2[b];
      }
    }
    forall k | lo <= k < hi
      ensures Marked(|s|, I2, V2, J2, k, h)
    {
      if k < m {
        assert Marked(|s|, I, V, J, k, h);
        assert P[J[k]] == k && P2[J[k]] == k;
        if I[k] == -1 {
          assert Lone(V, J[k]);
        }
      }
    }
  }

  /** A part that was just given one rank is finished. */
  lemma DoneGroup(s: seq<byte>, I: seq<int>, V: seq<int>, J: seq<int>, P: seq<int>, lo: int, hi: int, g: int, h: nat)
    requires Inverse(J, P) && Ranked(V, P) && |I| == |J| && 0 <= lo < hi <= |J|
    requires Group(V, P, lo, hi - 1)
    requires Pairs(s, P, lo, hi, h)
    requires hi == lo + 1 ==> I[lo] == -1
    requires hi > lo + 1 ==> forall m :: lo <= m < hi ==> I[m] == J[m]
    ensures Done(s, I, V, J, P, lo, hi, h)
  {
    forall m | lo <= m < hi
      ensures Marked(|s|, I, V, J, m, h)
    {
      assert P[J[m]] == m;
      if hi == lo + 1 {
        forall b | 0 <= b < |V| && V[b] == V[J[m]]
          ensures b == J[m]
        {
          assert P[b] == lo;
        }
      } else {
        var k := if m == lo then lo + 1 else lo;
        assert P[J[k]] == k;
        assert SharePrefix(s, J[m], J[k], h);
      }
    }
  }

  // ----- facts about suffixes that the keys establish -----

  /** Every key in `lo..m-1` is below every key in `m..e-1`. */
  ghost predicate Cut(V: seq<int>, J: seq<int>, h: nat, lo: int, m: int, e: int) {
    && Keyed(V, J, h, lo, e) && lo <= m <= e
    && (forall k, l :: lo <= k < m <= l < e ==> V[J[k]+h] < V[J[l]+h])
  }

  lemma CutPair(s: seq<byte>, V: seq<int>, J: seq<int>, P: seq<int>, h: nat, lo: int, m: int, e: int, g: int, a: nat,
                b: nat)
    requires |V| == |s| + 1 && Ordered(s, V) && Refined(s, V, h) && Inverse(J, P) && |P| == |V|
    requires Cut(V, J, h, lo, m, e) && a < |V| && b < |V| && lo <= P[a] < m <= P[b] < e && V[a] == V[b]
    ensures SuffixLess(s, a, b)
  {
    assert J[P[a]] == a && J[P[b]] == b;
    KeyOrder(s, V, h, a, b);
  }

  /** A cut by keys is a cut by suffixes. */
  lemma CutBelow(s: seq<byte>, V: seq<int>, J: seq<int>, P: seq<int>, h: nat, lo: int, m: int, e: int, g: int)
    requires State(s, V, J, P, h) && 0 <= lo <= m <= e <= g + 1 <= |V| && Group(V, P, lo, g)
    requires Cut(V, J, h, lo, m, e) && Below(s, P, lo, e, g)
    ensures Below(s, P, lo, m, g) && Below(s, P, m, e, g)
  {
    forall a, b | 0 <= a < |P| && 0 <= b < |P| && lo <= P[a] < m <= P[b] <= g
      ensures SuffixLess(s, a, b)
    {
      if P[b] < e {
        CutPair(s, V, J, P, h, lo, m, e, g, a, b);
      }
    }
  }

  lemma EqualPair(s: seq<byte>, V: seq<int>, J: seq<int>, P: seq<int>, h: nat, lo: int, hi: int, x: int, a: nat, b: nat)
    requires |V| == |s| + 1 && Ordered(s, V) && Refined(s, V, h) && Inverse(J, P) && |P| == |V|
    requires Keyed(V, J, h, lo, hi) && forall k :: lo <= k < hi ==> V[J[k]+h] == x
    requires a < |V| && b < |V| && a != b && lo <= P[a] < hi && lo <= P[b] < hi && V[a] == V[b]
    ensures SharePrefix(s, a, b, 2 * h)
  {
    assert J[P[a]] == a && J[P[b]] == b;
    KeyOrder(s, V, h, a, b);
  }

  /** Equal keys inside a group double the common prefix. */
  lemma EqualPairs(s: seq<byte>, V: seq<int>, J: seq<int>, P: seq<int>, h: nat, from: int, lo: int, hi: int, g: int,
                   x: int)
    requires State(s, V, J, P, h) && 0 <= from <= lo <= hi <= g + 1 <= |V| && Group(V, P, from, g)
    requires Keyed(V, J, h, lo, hi) && forall k :: lo <= k < hi ==> V[J[k]+h] == x
    ensures Pairs(s, P, lo, hi, 2 * h)
  {
    hide SharePrefix, Ordered, Refined, Inverse, Keyed;
    StateParts(s, V, J, P, h);
    forall a, b | 0 <= a < |P| && 0 <= b < |P| && a != b && lo <= P[a] < hi && lo <= P[b] < hi
      ensures SharePrefix(s, a, b, 2 * h)
    {
      SameGroup(V, P, from, g, a, b);
      EqualPair(s, V, J, P, h, lo, hi, x, a, b);
    }
  }

  lemma StateParts(s: seq<byte>, V: seq<int>, J: seq<int>, P: seq<int>, h: nat)
    requires State(s, V, J, P, h)
    ensures |V| == |s| + 1 && Ordered(s, V) && Refined(s, V, h) && Inverse(J, P) && |P| == |V|
  {
    hide Ordered, Refined, Inverse;
  }

  lemma SameGroup(V: seq<int>, P: seq<int>, lo: int, g: int, a: nat, b: nat)
    requires Group(V, P, lo, g) && |P| == |V| && a < |V| && b < |V| && lo <= P[a] <= g && lo <= P[b] <= g
    ensures V[a] == V[b]
  {
  }

  // ----- split -----

  /** Indices `lo..e-1` are the next, still unsorted, part of the group that ends at `g`. */
  ghost predicate Ready(s: seq<byte>, I: seq<int>, V: seq<int>, J: seq<int>, P: seq<int>, h: nat, lo: int, e: int,
                        g: int) {
    && State(s, V, J, P, h) && 0 <= lo <= e <= g + 1 <= |V|
    && Group(V, P, lo, g) && Below(s, P, lo, e, g) && Fits(|s|, P, lo, e, h) && Shows(I, J, lo, e)
  }

  lemma ReadyKeyed(s: seq<byte>, I: seq<int>, V: seq<int>, J: seq<int>, P: seq<int>, h: nat, lo: int, e: int, g: int)
    requires Ready(s, I, V, J, P, h, lo, e, g)
    ensures Keyed(V, J, h, lo, e)
  {
    forall k | lo <= k < e
      ensures 0 <= J[k] && J[k] + h < |V|
    {
      assert P[J[k]] == k;
    }
  }

  lemma ReadyRearranged(s: seq<byte>, I: seq<int>, V: seq<int>, J: seq<int>, P: seq<int>,
                        I2: seq<int>, J2: seq<int>, P2: seq<int>, h: nat, lo: int, e: int, g: int)
    requires Ready(s, I, V, J, P, h, lo, e, g) && Rearranged(J, P, J2, P2, lo, e) && Shows(I2, J2, lo, e)
    ensures Ready(s, I2, V, J2, P2, h, lo, e, g)
  {
    RearrangedKeeps(s, V, J, P, J2, P2, h, lo, e, g);
    RearrangedBelow(s, J, P, J2, P2, lo, e, g);
  }

  lemma CarveFacts(s: seq<byte>, I: seq<int>, V: seq<int>, I2: seq<int>, V2: seq<int>, J: seq<int>, P: seq<int>,
                   h: nat, lo: int, hi: int, e: int, g: int)
    requires Ready(s, I, V, J, P, h, lo, e, g) && lo < hi <= e
    requires Below(s, P, lo, hi, g) && Below(s, P, hi, e, g) && Pairs(s, P, lo, hi, 2 * h)
    requires |V2| == |V| && forall a :: 0 <= a < |V| ==> V2[a] == if lo <= P[a] < hi then hi - 1 else V[a]
    requires I2 == if hi == lo + 1 then I[lo := -1] else I
    ensures Ready(s, I2, V2, J, P, h, hi, e, g)
    ensures Done(s, I2, V2, J, P, lo, hi, 2 * h)
  {
    CarveKeeps(s, V, V2, J, P, h, lo, hi, g);
    DoneGroup(s, I2, V2, J, P, lo, hi, g, 2 * h);
  }

  /** Lines 77-78 and 115-116: rank the indices `lo..hi-1` as one group and mark a lone suffix. */
  method Carve(ghost s: seq<byte>, I: array<int>, V: array<int>, ghost h: nat, lo: int, hi: int,
               ghost J: seq<int>, ghost P: seq<int>, ghost e: int, ghost g: int)
    requires I != V && I.Length == V.Length
    requires Ready(s, I[..], V[..], J, P, h, lo, e, g) && lo < hi <= e
    requires Below(s, P, lo, hi, g) && Below(s, P, hi, e, g) && Pairs(s, P, lo, hi, 2 * h)
    modifies I, V
    ensures Ready(s, I[..], V[..], J, P, h, hi, e, g)
    ensures Done(s, I[..], V[..], J, P, lo, hi, 2 * h)
    ensures forall m :: 0 <= m < I.Length && m != lo ==> I[m] == old(I[m])
    ensures |P| == V.Length && forall a :: 0 <= a < V.Length && !(lo <= P[a] < hi) ==> V[a] == old(V[a])
  {
    ghost var I0, V0 := I[..], V[..];
    SetRanks(I, V, lo, hi, J, P);
    if hi == lo + 1 {
      I[lo] := -1;
    }
    CarveFacts(s, I0, V0, I[..], V[..], J, P, h, lo, hi, e, g);
  }

  /** `lo..k-1` is finished and `k..e-1` is ready; nothing outside `lo..e-1` differs from the start. */
  ghost predicate SoFar(s: seq<byte>, I0: seq<int>, V0: seq<int>, J0: seq<int>, P0: seq<int>,
                        I: seq<int>, V: seq<int>, J: seq<int>, P: seq<int>, h: nat, lo: int, k: int, e: int, g: int) {
    && Rearranged(J0, P0, J, P, lo, e) && Ready(s, I, V, J, P, h, k, e, g) && Done(s, I, V, J, P, lo, k, 2 * h)
    && |I0| == |V0| == |I| == |J0|
    && (forall m :: 0 <= m < |I| && !(lo <= m < e) ==> I[m] == I0[m])
    && (forall a :: 0 <= a < |V| && !(lo <= P0[a] < e) ==> V[a] == V0[a])
  }

  lemma SoFarStep(s: seq<byte>, I0: seq<int>, V0: seq<int>, J0: seq<int>, P0: seq<int>,
                  I: seq<int>, V: seq<int>, J: seq<int>, P: seq<int>,
                  I2: seq<int>, V2: seq<int>, J2: seq<int>, P2: seq<int>, h: nat, lo: int, k: int, k2: int,
                    e: int, g: int)
    requires SoFar(s, I0, V0, J0, P0, I, V, J, P, h, lo, k, e, g)
    requires Rearranged(J, P, J2, P2, k, e) && k <= k2 <= e
    requires Ready(s, I2, V2, J2, P2, h, k2, e, g) && Done(s, I2, V2, J2, P2, k, k2, 2 * h)
    requires |I2| == |I| && forall m :: 0 <= m < |I| && !(k <= m < e) ==> I2[m] == I[m]
    requires |V2| == |V| && forall a :: 0 <= a < |V| && !(k <= P[a] < e) ==> V2[a] == V[a]
    ensures SoFar(s, I0, V0, J0, P0, I2, V2, J2, P2, h, lo, k2, e, g)
  {
    DoneExtend(s, I, V, J, P, I2, V2, J2, P2, lo, k, k2, e, 2 * h);
    RearrangedWiden(J, P, J2, P2, k, e, lo, e);
    RearrangedTransitive(J0, P0, J, P, J2, P2, lo, e);
  }

  lemma SoFarStart(s: seq<byte>, I: seq<int>, V: seq<int>, J: seq<int>, P: seq<int>, h: nat, lo: int, e: int, g: int)
    requires Ready(s, I, V, J, P, h, lo, e, g)
    ensures SoFar(s, I, V, J, P, I, V, J, P, h, lo, lo, e, g)
  {
    RearrangedRefl(J, P, lo, e);
  }

  /** What gathering the smallest keys says about the suffixes. */
  lemma GatheredFacts(s: seq<byte>, I: seq<int>, V: seq<int>, J: seq<int>, P: seq<int>, h: nat, k: int, j: int,
                      e: int, x: int, g: int)
    requires Ready(s, I, V, J, P, h, k, e, g) && Gathered(V, J, h, k, j, e - k, x)
    ensures Below(s, P, k, k + j, g) && Below(s, P, k + j, e, g) && Pairs(s, P, k, k + j, 2 * h)
  {
    CutBelow(s, V, J, P, h, k, k + j, e, g);
    EqualPairs(s, V, J, P, h, k, k, k + j, g, x);
  }

  /** Lines 64-81: the selection sort for short groups. */
  method SplitShort(ghost s: seq<byte>, I: array<int>, V: array<int>, start: int, len: int, h: nat,
                    ghost J: seq<int>, ghost P: seq<int>, ghost g: int)
    returns (ghost J2: seq<int>, ghost P2: seq<int>)
    requires I != V && I.Length == V.Length
    requires Ready(s, I[..], V[..], J, P, h, start, start + len, g)
    modifies I, V
    ensures SoFar(s, old(I[..]), old(V[..]), J, P, I[..], V[..], J2, P2, h, start, start + len, start + len, g)
  {
    hide Ready, SoFar, Done, Rearranged, Gathered, Below, Pairs;
    ghost var e := start + len;
    J2, P2 := J, P;
    SoFarStart(s, I[..], V[..], J, P, h, start, e, g);
    SoFarFacts(s, old(I[..]), old(V[..]), J, P, I[..], V[..], J2, P2, h, start, start, e, g);
    var k := start;
    while k < start + len
      invariant 0 <= start <= k <= e <= I.Length == |J2| == |P2|
      invariant SoFar(s, old(I[..]), old(V[..]), J, P, I[..], V[..], J2, P2, h, start, k, e, g)
      decreases e - k
    {
      SoFarFacts(s, old(I[..]), old(V[..]), J, P, I[..], V[..], J2, P2, h, start, k, e, g);
      ghost var I1, V1, J1, P1 := I[..], V[..], J2, P2;
      ghost var x;
      var j;
      j, x, J2, P2 := GatherSmallest(I, V, h, k, start + len, J1, P1);
      assert V[..] == V1;
      ReadyRearranged(s, I1, V1, J1, P1, I[..], J2, P2, h, k, e, g);
      GatheredFacts(s, I[..], V1, J2, P2, h, k, j, e, x, g);
      RearrangedInside(J1, P1, J2, P2, k, e);
      Carve(s, I, V, h, k, k + j, J2, P2, e, g);
      SoFarStep(s, old(I[..]), old(V[..]), J, P, I1, V1, J1, P1, I[..], V[..], J2, P2, h, start, k, k + j, e, g);
      k := k + j;
    }
  }

  lemma RearrangedInside(J: seq<int>, P: seq<int>, J2: seq<int>, P2: seq<int>, lo: int, e: int)
    requires Rearranged(J, P, J2, P2, lo, e)
    ensures |J2| == |P2| == |P| == |J| && forall a :: 0 <= a < |P| ==> (lo <= P[a] < e <==> lo <= P2[a] < e)
  {
  }

  lemma SoFarFacts(s: seq<byte>, I0: seq<int>, V0: seq<int>, J0: seq<int>, P0: seq<int>,
                   I: seq<int>, V: seq<int>, J: seq<int>, P: seq<int>, h: nat, lo: int, k: int, e: int, g: int)
    requires SoFar(s, I0, V0, J0, P0, I, V, J, P, h, lo, k, e, g)
    ensures Ready(s, I, V, J, P, h, k, e, g) && Inverse(J, P) && Keyed(V, J, h, k, e)
    ensures |I| == |J| == |P| == |V| && 0 <= lo <= k <= e <= |J| && (forall m :: k <= m < e ==> I[m] == J[m])
  {
    ReadyKeyed(s, I, V, J, P, h, k, e, g);
  }

  // ----- the three-way partition of long groups -----

  /** Keys compare to `x` as `c` says throughout `lo..hi-1`. */
  ghost predicate Run(W: seq<int>, J: seq<int>, h: nat, lo: int, hi: int, x: int, c: int) {
    Keyed(W, J, h, lo, hi) && forall m :: lo <= m < hi ==> Compare(W[J[m]+h], x) == c
  }

  /**
   The partition loops' state: `lo..i-1`, `jj..jj+j-1` and `kk..kk+k-1` are in place, and the
   three final sizes are the numbers of smaller, equal and larger keys.
   */
  ghost predicate Parting(W: seq<int>, J: seq<int>, h: nat, lo: int, i: int, jj: int, j: int, kk: int, k: int, e: int,
                          x: int) {
    && Keyed(W, J, h, lo, e) && lo <= i <= jj <= jj + j <= kk <= kk + k <= e
    && Run(W, J, h, lo, i, x, -1) && Run(W, J, h, jj, jj + j, x, 0) && Run(W, J, h, kk, kk + k, x, 1)
    && Count(W, J, h, lo, e, x, -1) == jj - lo
    && Count(W, J, h, lo, e, x, 0) == kk - jj
    && Count(W, J, h, lo, e, x, 1) == e - kk
  }

  /** A run and one more hit before it leave room in the count. */
  lemma RunRoom(W: seq<int>, J: seq<int>, h: nat, lo: int, i: int, p: int, q: int, e: int, x: int, c: int)
    requires Keyed(W, J, h, lo, e) && lo <= i < p <= q <= e
    requires Run(W, J, h, p, q, x, c) && Compare(W[J[i]+h], x) == c
    ensures q - p < Count(W, J, h, lo, e, x, c)
  {
    CountAround(W, J, h, lo, i, e, x, c);
    CountSplit(W, J, h, i + 1, p, e, x, c);
    CountSplit(W, J, h, p, q, e, x, c);
    CountAll(W, J, h, p, q, x, c, c);
  }

  /** A run that already uses up the count leaves no hit after it. */
  lemma RunFull(W: seq<int>, J: seq<int>, h: nat, lo: int, p: int, q: int, e: int, x: int, c: int)
    requires Keyed(W, J, h, lo, e) && lo <= p <= q <= e
    requires Run(W, J, h, p, q, x, c) && Count(W, J, h, lo, e, x, c) == q - p
    ensures forall m :: q <= m < e ==> Compare(W[J[m]+h], x) != c
  {
    CountSplit(W, J, h, lo, p, e, x, c);
    CountSplit(W, J, h, p, q, e, x, c);
    CountAll(W, J, h, p, q, x, c, c);
    CountNone(W, J, h, q, e, x, c);
  }

  lemma PartingSwap(W: seq<int>, J: seq<int>, h: nat, lo: int, i: int, jj: int, j: int, kk: int, k: int, e: int,
                    x: int, p: int, q: int)
    requires Parting(W, J, h, lo, i, jj, j, kk, k, e, x) && i <= p < q < e
    requires || (p < jj && q == jj + j < kk && Compare(W[J[p]+h], x) == 0)
             || (jj + j <= p < kk && q == kk + k && Compare(W[J[p]+h], x) == 1)
             || (p < jj && q == kk + k && Compare(W[J[p]+h], x) == 1)
    ensures Parting(W, SwapJ(J, p, q), h, lo, i, jj, if q < kk then j + 1 else j, kk, if q < kk then k else k + 1, e, x)
  {
    CountSwap(W, J, h, lo, e, p, q, x, -1);
    CountSwap(W, J, h, lo, e, p, q, x, 0);
    CountSwap(W, J, h, lo, e, p, q, x, 1);
  }

  /** `x` separates the three parts. */
  ghost predicate Parted(W: seq<int>, J: seq<int>, h: nat, lo: int, jj: int, kk: int, e: int, x: int) {
    && Keyed(W, J, h, lo, e) && lo <= jj < kk <= e
    && Run(W, J, h, lo, jj, x, -1) && Run(W, J, h, jj, kk, x, 0) && Run(W, J, h, kk, e, x, 1)
  }

  lemma PartingEnd(W: seq<int>, J: seq<int>, h: nat, lo: int, jj: int, kk: int, k: int, e: int, x: int)
    requires Parting(W, J, h, lo, jj, jj, kk - jj, kk, k, e, x) && jj < kk
    ensures Parted(W, J, h, lo, jj, kk, e, x)
  {
    RunFull(W, J, h, lo, lo, jj, e, x, -1);
    RunFull(W, J, h, lo, jj, kk, e, x, 0);
  }

  lemma {:induction false} CountPositive(W: seq<int>, J: seq<int>, h: nat, lo: int, p: int, e: int, x: int, c: int)
    requires Keyed(W, J, h, lo, e) && lo <= p < e && Compare(W[J[p]+h], x) == c
    ensures 0 < Count(W, J, h, lo, e, x, c)
  {
    CountAround(W, J, h, lo, p, e, x, c);
  }

  /** Lines 83-89: pivot on the middle key and count. */
  method CountKeys(I: array<int>, V: array<int>, start: int, len: int, h: nat, ghost J: seq<int>)
    returns (x: int, jj: int, kk: int)
    requires I != V && I.Length == V.Length == |J| && 0 < len
    requires Keyed(V[..], J, h, start, start + len)
    requires forall m :: start <= m < start + len ==> I[m] == J[m]
    ensures jj < kk
    ensures Parting(V[..], J, h, start, start, jj, 0, kk, 0, start + len, x)
  {
    x := V[I[start+len/2]+h];
    jj, kk := 0, 0;
    var i := start;
    ghost var W := V[..];
    while i < start + len
      invariant start <= i <= start + len
      invariant jj == Count(W, J, h, start, i, x, -1) && kk == Count(W, J, h, start, i, x, 0)
    {
      if V[I[i]+h] < x {
        jj := jj + 1;
      }
      if V[I[i]+h] == x {
        kk := kk + 1;
      }
      i := i + 1;
    }
    CountTotal(W, J, h, start, start + len, x);
    CountPositive(W, J, h, start, start + len / 2, start + len, x, 0);
    jj := jj + start;
    kk := kk + jj;
  }

  lemma PartingFacts(W: seq<int>, J: seq<int>, h: nat, lo: int, i: int, jj: int, j: int, kk: int, k: int, e: int,
                     x: int)
    requires Parting(W, J, h, lo, i, jj, j, kk, k, e, x)
    ensures Keyed(W, J, h, lo, e) && 0 <= lo <= i <= jj <= jj + j <= kk <= kk + k <= e <= |J|
    ensures forall p :: i <= p < jj && Compare(W[J[p]+h], x) == 0 ==> jj + j < kk
    ensures forall p :: i <= p < kk && Compare(W[J[p]+h], x) == 1 ==> kk + k < e
    ensures i == jj ==> forall p :: jj <= p < e ==> Compare(W[J[p]+h], x) != -1
  {
    forall p | i <= p < jj && Compare(W[J[p]+h], x) == 0 {
      RunRoom(W, J, h, lo, p, jj, jj + j, e, x, 0);
    }
    forall p | i <= p < kk && Compare(W[J[p]+h], x) == 1 {
      RunRoom(W, J, h, lo, p, kk, kk + k, e, x, 1);
    }
    if i == jj {
      RunFull(W, J, h, lo, lo, jj, e, x, -1);
    }
  }

  lemma PartingSkip(W: seq<int>, J: seq<int>, h: nat, lo: int, i: int, jj: int, j: int, kk: int, k: int, e: int, x: int)
    requires Parting(W, J, h, lo, i, jj, j, kk, k, e, x)
    ensures i < jj && Compare(W[J[i]+h], x) == -1 ==> Parting(W, J, h, lo, i + 1, jj, j, kk, k, e, x)
    ensures jj + j < kk && Compare(W[J[jj+j]+h], x) == 0 ==> Parting(W, J, h, lo, i, jj, j + 1, kk, k, e, x)
  {
  }

  /** Lines 91-102: put every smaller key in front of `jj`. */
  method MoveSmaller(I: array<int>, V: array<int>, h: nat, start: int, jj: int, kk: int, x: int, ghost e: int,
                     ghost J: seq<int>, ghost P: seq<int>)
    returns (j: int, k: int, ghost J2: seq<int>, ghost P2: seq<int>)
    requires I != V && I.Length == V.Length == |J| && Inverse(J, P)
    requires Parting(V[..], J, h, start, start, jj, 0, kk, 0, e, x)
    requires 0 <= start <= e <= |J| && forall m :: start <= m < e ==> I[m] == J[m]
    modifies I
    ensures Rearranged(J, P, J2, P2, start, e) && |J2| == |J|
    ensures forall m :: start <= m < e ==> I[m] == J2[m]
    ensures forall m :: 0 <= m < I.Length && !(start <= m < e) ==> I[m] == old(I[m])
    ensures Parting(V[..], J2, h, start, jj, jj, j, kk, k, e, x)
  {
    hide Rearranged, Inverse, Parting;
    ghost var W := V[..];
    RearrangedRefl(J, P, start, e);
    J2, P2 := J, P;
    var i := start;
    j, k := 0, 0;
    PartingFacts(W, J2, h, start, i, jj, j, kk, k, e, x);
    while i < jj
      invariant V[..] == W && start <= i <= jj
      invariant Rearranged(J, P, J2, P2, start, e) && |J2| == |J|
      invariant forall m :: start <= m < e ==> I[m] == J2[m]
      invariant forall m :: 0 <= m < I.Length && !(start <= m < e) ==> I[m] == old(I[m])
      invariant Parting(W, J2, h, start, i, jj, j, kk, k, e, x)
      invariant j <= e && k <= e
      decreases jj - i + e - j + e - k
    {
      PartingFacts(W, J2, h, start, i, jj, j, kk, k, e, x);
      PartingSkip(W, J2, h, start, i, jj, j, kk, k, e, x);
      var y := V[I[i]+h];
      if y < x {
        i := i + 1;
      } else if y == x {
        PartingSwap(W, J2, h, start, i, jj, j, kk, k, e, x, i, jj + j);
        J2, P2 := ExchangeInside(I, i, jj + j, J, P, J2, P2, start, e);
        j := j + 1;
      } else {
        PartingSwap(W, J2, h, start, i, jj, j, kk, k, e, x, i, kk + k);
        J2, P2 := ExchangeInside(I, i, kk + k, J, P, J2, P2, start, e);
        k := k + 1;
      }
    }
  }

  /** Lines 104-111: put every equal key in front of `kk`. */
  method MoveEqual(I: array<int>, V: array<int>, h: nat, ghost start: int, jj: int, j0: int, kk: int, k0: int, x: int,
                   ghost e: int,
                   ghost J: seq<int>, ghost P: seq<int>)
    returns (ghost J2: seq<int>, ghost P2: seq<int>)
    requires I != V && I.Length == V.Length == |J| && Inverse(J, P) && jj < kk
    requires Parting(V[..], J, h, start, jj, jj, j0, kk, k0, e, x)
    requires 0 <= start <= e <= |J| && forall m :: start <= m < e ==> I[m] == J[m]
    modifies I
    ensures Rearranged(J, P, J2, P2, start, e) && |J2| == |J|
    ensures forall m :: start <= m < e ==> I[m] == J2[m]
    ensures forall m :: 0 <= m < I.Length && !(start <= m < e) ==> I[m] == old(I[m])
    ensures Parted(V[..], J2, h, start, jj, kk, e, x)
  {
    hide Rearranged, Inverse, Parting, Parted;
    ghost var W := V[..];
    RearrangedRefl(J, P, start, e);
    J2, P2 := J, P;
    var j, k := j0, k0;
    PartingFacts(W, J2, h, start, jj, jj, j, kk, k, e, x);
    while jj + j < kk
      invariant V[..] == W && jj + j <= kk
      invariant Rearranged(J, P, J2, P2, start, e) && |J2| == |J|
      invariant forall m :: start <= m < e ==> I[m] == J2[m]
      invariant forall m :: 0 <= m < I.Length && !(start <= m < e) ==> I[m] == old(I[m])
      invariant Parting(W, J2, h, start, jj, jj, j, kk, k, e, x)
      invariant k <= e
      decreases kk - jj - j + e - k
    {
      PartingFacts(W, J2, h, start, jj, jj, j, kk, k, e, x);
      PartingSkip(W, J2, h, start, jj, jj, j, kk, k, e, x);
      if V[I[jj+j]+h] == x {
        j := j + 1;
      } else {
        PartingSwap(W, J2, h, start, jj, jj, j, kk, k, e, x, jj + j, kk + k);
        J2, P2 := ExchangeInside(I, jj + j, kk + k, J, P, J2, P2, start, e);
        k := k + 1;
      }
    }
    PartingEnd(W, J2, h, start, jj, kk, k, e, x);
  }

  // ----- split as a whole -----

  lemma PartedFacts(s: seq<byte>, I: seq<int>, V: seq<int>, J: seq<int>, P: seq<int>, h: nat, lo: int, jj: int,
                    kk: int, e: int, x: int, g: int)
    requires Ready(s, I, V, J, P, h, lo, e, g) && Parted(V, J, h, lo, jj, kk, e, x)
    ensures Below(s, P, lo, jj, g) && Below(s, P, jj, e, g) && Below(s, P, jj, kk, g) && Below(s, P, kk, e, g)
    ensures Pairs(s, P, jj, kk, 2 * h)
    ensures Ready(s, I, V, J, P, h, lo, jj, g)
  {
    PartedCut(V, J, h, lo, jj, kk, e, x);
    hide State, SuffixLess, Run, Keyed, Pairs, Cut;
    CutBelow(s, V, J, P, h, lo, jj, e, g);
    CutBelow(s, V, J, P, h, lo, kk, e, g);
    MiddleFacts(s, V, J, P, h, lo, jj, kk, e, x, g);
  }

  lemma PartedCut(V: seq<int>, J: seq<int>, h: nat, lo: int, jj: int, kk: int, e: int, x: int)
    requires Parted(V, J, h, lo, jj, kk, e, x)
    ensures Cut(V, J, h, lo, jj, e) && Cut(V, J, h, lo, kk, e)
  {
  }

  lemma MiddleFacts(s: seq<byte>, V: seq<int>, J: seq<int>, P: seq<int>, h: nat, lo: int, jj: int, kk: int, e: int,
                    x: int, g: int)
    requires State(s, V, J, P, h) && 0 <= lo <= jj <= kk <= e <= g + 1 <= |V| && Group(V, P, lo, g)
    requires Run(V, J, h, jj, kk, x, 0) && Below(s, P, lo, kk, g)
    ensures Below(s, P, jj, kk, g) && Pairs(s, P, jj, kk, 2 * h)
  {
    hide State, SharePrefix, SuffixLess, Pairs;
    RunKeys(V, J, h, jj, kk, x);
    EqualPairs(s, V, J, P, h, lo, jj, kk, g, x);
  }

  lemma RunKeys(V: seq<int>, J: seq<int>, h: nat, lo: int, hi: int, x: int)
    requires Run(V, J, h, lo, hi, x, 0)
    ensures Keyed(V, J, h, lo, hi) && forall k :: lo <= k < hi ==> V[J[k]+h] == x
  {
  }

  /** Facts about suffixes behind a part that was rearranged still hold. */
  lemma FactsBehind(s: seq<byte>, J: seq<int>, P: seq<int>, J2: seq<int>, P2: seq<int>, lo: int, m: int, x: int,
                    y: int, g: int, h: nat)
    requires Rearranged(J, P, J2, P2, lo, m) && lo <= m <= x
    ensures Below(s, P, x, y, g) ==> Below(s, P2, x, y, g)
    ensures Pairs(s, P, x, y, h) ==> Pairs(s, P2, x, y, h)
  {
    assert forall a :: 0 <= a < |P| && x <= P2[a] ==> P[a] == P2[a];
  }

  /** Sorting the front `lo..m-1` of a part leaves the rest ready. */
  lemma FrontDone(s: seq<byte>, I: seq<int>, V: seq<int>, J: seq<int>, P: seq<int>,
                  I2: seq<int>, V2: seq<int>, J2: seq<int>, P2: seq<int>, h: nat, lo: int, m: int, e: int, g: int)
    requires Ready(s, I, V, J, P, h, lo, e, g) && lo <= m <= e && Below(s, P, m, e, g)
    requires SoFar(s, I, V, J, P, I2, V2, J2, P2, h, lo, m, m, g)
    ensures SoFar(s, I, V, J, P, I2, V2, J2, P2, h, lo, m, e, g)
  {
    RearrangedWiden(J, P, J2, P2, lo, m, lo, e);
    FactsBehind(s, J, P, J2, P2, lo, m, m, e, g, h);
    assert forall a :: 0 <= a < |P| && m <= P2[a] ==> P[a] == P2[a];
  }

  lemma SoFarParts(s: seq<byte>, I0: seq<int>, V0: seq<int>, J0: seq<int>, P0: seq<int>,
                   I: seq<int>, V: seq<int>, J: seq<int>, P: seq<int>, h: nat, lo: int, k: int, e: int, g: int)
    requires SoFar(s, I0, V0, J0, P0, I, V, J, P, h, lo, k, e, g)
    ensures Rearranged(J0, P0, J, P, lo, e) && Ready(s, I, V, J, P, h, k, e, g) && Done(s, I, V, J, P, lo, k, 2 * h)
    ensures |I0| == |V0| == |I| == |V| == |J| == |P| == |P0| && 0 <= lo <= k <= e <= |J|
    ensures forall m :: 0 <= m < |I| && !(lo <= m < e) ==> I[m] == I0[m]
    ensures forall a :: 0 <= a < |V| && !(lo <= P0[a] < e) ==> V[a] == V0[a]
  {
  }

  lemma SoFarMoved(s: seq<byte>, I: seq<int>, V: seq<int>, J: seq<int>, P: seq<int>,
                   I2: seq<int>, J2: seq<int>, P2: seq<int>, h: nat, lo: int, e: int, g: int)
    requires Ready(s, I, V, J, P, h, lo, e, g) && Rearranged(J, P, J2, P2, lo, e) && Shows(I2, J2, lo, e) && |I| == |I2|
    requires forall m :: 0 <= m < |I| && !(lo <= m < e) ==> I2[m] == I[m]
    ensures Ready(s, I2, V, J2, P2, h, lo, e, g)
    ensures SoFar(s, I, V, J, P, I2, V, J2, P2, h, lo, lo, e, g)
  {
    ReadyRearranged(s, I, V, J, P, I2, J2, P2, h, lo, e, g);
  }

  /** Lines 83-111 on a ready part. */
  method PartitionGroup(ghost s: seq<byte>, I: array<int>, V: array<int>, start: int, len: int, h: nat,
                        ghost J: seq<int>, ghost P: seq<int>, ghost g: int)
    returns (jj: int, kk: int, ghost J2: seq<int>, ghost P2: seq<int>)
    requires I != V && I.Length == V.Length && 0 < len
    requires Ready(s, I[..], V[..], J, P, h, start, start + len, g)
    modifies I
    ensures start <= jj < kk <= start + len
    ensures SoFar(s, old(I[..]), V[..], J, P, I[..], V[..], J2, P2, h, start, start, start + len, g)
    ensures Ready(s, I[..], V[..], J2, P2, h, start, jj, g)
    ensures Below(s, P2, jj, start + len, g) && Below(s, P2, jj, kk, g) && Below(s, P2, kk, start + len, g)
    ensures Pairs(s, P2, jj, kk, 2 * h)
  {
    hide Ready, SoFar, Rearranged, Parting, Parted, Below, Pairs;
    ghost var I0, W, e := I[..], V[..], start + len;
    SoFarStart(s, I0, W, J, P, h, start, e, g);
    SoFarFacts(s, I0, W, J, P, I0, W, J, P, h, start, start, e, g);
    var x, j, k;
    x, jj, kk := CountKeys(I, V, start, len, h, J);
    ghost var J1, P1;
    j, k, J1, P1 := MoveSmaller(I, V, h, start, jj, kk, x, e, J, P);
    RearrangedInverse(J, P, J1, P1, start, e);
    assert V[..] == W;
    J2, P2 := MoveEqual(I, V, h, start, jj, j, kk, k, x, e, J1, P1);
    RearrangedTransitive(J, P, J1, P1, J2, P2, start, e);
    assert V[..] == W;
    SoFarMoved(s, I0, W, J, P, I[..], J2, P2, h, start, e, g);
    PartedBounds(W, J2, h, start, jj, kk, e, x);
    PartedFacts(s, I[..], W, J2, P2, h, start, jj, kk, e, x, g);
  }

  lemma PartedBounds(W: seq<int>, J: seq<int>, h: nat, lo: int, jj: int, kk: int, e: int, x: int)
    requires Parted(W, J, h, lo, jj, kk, e, x)
    ensures lo <= jj < kk <= e
  {
  }

  lemma RearrangedSame(s: seq<byte>, I0: seq<int>, V0: seq<int>, J0: seq<int>, P0: seq<int>,
                       I: seq<int>, V: seq<int>, J: seq<int>, P: seq<int>, h: nat, lo: int, k: int, e: int, g: int)
    requires SoFar(s, I0, V0, J0, P0, I, V, J, P, h, lo, k, e, g)
    ensures Rearranged(J, P, J, P, k, e)
  {
    RearrangedRefl(J, P, k, e);
  }

  /** After the front part is sorted, the middle can be carved. */
  lemma FrontSorted(s: seq<byte>, I0: seq<int>, V0: seq<int>, J0: seq<int>, P0: seq<int>,
                    I: seq<int>, V: seq<int>, J: seq<int>, P: seq<int>,
                    I2: seq<int>, V2: seq<int>, J2: seq<int>, P2: seq<int>, h: nat, lo: int, jj: int, kk: int,
                      e: int, g: int)
    requires SoFar(s, I0, V0, J0, P0, I, V, J, P, h, lo, lo, e, g) && lo <= jj < kk <= e
    requires Below(s, P, jj, e, g) && Below(s, P, jj, kk, g) && Below(s, P, kk, e, g) && Pairs(s, P, jj, kk, 2 * h)
    requires SoFar(s, I, V, J, P, I2, V2, J2, P2, h, lo, jj, jj, g)
    ensures SoFar(s, I0, V0, J0, P0, I2, V2, J2, P2, h, lo, jj, e, g)
    ensures Below(s, P2, jj, kk, g) && Below(s, P2, kk, e, g) && Pairs(s, P2, jj, kk, 2 * h)
  {
    hide Below, Pairs, Done, Group, State;
    SoFarParts(s, I, V, J, P, I2, V2, J2, P2, h, lo, jj, jj, g);
    FrontDone(s, I, V, J, P, I2, V2, J2, P2, h, lo, jj, e, g);
    SoFarStep(s, I0, V0, J0, P0, I, V, J, P, I2, V2, J2, P2, h, lo, lo, jj, e, g);
    FactsBehind(s, J, P, J2, P2, lo, jj, jj, kk, g, 2 * h);
    FactsBehind(s, J, P, J2, P2, lo, jj, kk, e, g, 2 * h);
  }

  /**
   Sort the part `start..start+len-1` of a group by the ranks `h` bytes further on.  Afterwards the part
   is ordered by its first `2*h` bytes, the ranks say so, and nothing else has changed.
   */
  method Split(ghost s: seq<byte>, I: array<int>, V: array<int>, start: int, len: int, h: nat,
               ghost J: seq<int>, ghost P: seq<int>, ghost g: int)
    returns (ghost J2: seq<int>, ghost P2: seq<int>)
    requires I != V && I.Length == V.Length
    requires Ready(s, I[..], V[..], J, P, h, start, start + len, g)
    modifies I, V
    ensures SoFar(s, old(I[..]), old(V[..]), J, P, I[..], V[..], J2, P2, h, start, start + len, start + len, g)
    decreases len
  {
    hide Ready, SoFar, Done, Rearranged, Below, Pairs;
    if len < 16 {
      J2, P2 := SplitShort(s, I, V, start, len, h, J, P, g);
      return;
    }
    ghost var e, I0, V0 := start + len, I[..], V[..];
    var jj, kk;
    jj, kk, J2, P2 := PartitionGroup(s, I, V, start, len, h, J, P, g);
    assert V[..] == V0;
    ghost var I1, V1, J1, P1 := I[..], V[..], J2, P2;
    SoFarParts(s, I0, V0, J, P, I1, V1, J1, P1, h, start, start, e, g);
    if jj > start {
      J2, P2 := Split(s, I, V, start, jj - start, h, J1, P1, g);
    } else {
      SoFarStart(s, I1, V1, J1, P1, h, start, jj, g);
    }
    FrontSorted(s, I0, V0, J, P, I1, V1, J1, P1, I[..], V[..], J2, P2, h, start, jj, kk, e, g);
    I1, V1, J1, P1 := I[..], V[..], J2, P2;
    SoFarParts(s, I0, V0, J, P, I1, V1, J1, P1, h, start, jj, e, g);
    Carve(s, I, V, h, jj, kk, J2, P2, e, g);
    RearrangedSame(s, I0, V0, J, P, I1, V1, J1, P1, h, start, jj, e, g);
    SoFarStep(s, I0, V0, J, P, I1, V1, J1, P1, I[..], V[..], J1, P1, h, start, jj, kk, e, g);
    if start + len > kk {
      I1, V1, J1, P1 := I[..], V[..], J2, P2;
      J2, P2 := Split(s, I, V, kk, start + len - kk, h, J1, P1, g);
      SoFarParts(s, I1, V1, J1, P1, I[..], V[..], J2, P2, h, kk, e, e, g);
      SoFarStep(s, I0, V0, J, P, I1, V1, J1, P1, I[..], V[..], J2, P2, h, start, kk, e, e, g);
    }
  }
}