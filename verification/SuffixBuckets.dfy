/**
 The first phase of qsufsort: one bucket per byte value, so that suffixes are ordered
 and ranked by their first byte.
 */
module SuffixBuckets {
  import opened Bytes
  import opened SuffixOrder

  /** Occurrences of `c` before position `i`. */
  ghost function Occurs(s: seq<byte>, c: int, i: nat): nat
    requires i <= |s|
  {
    if i == 0 then 0 else Occurs(s, c, i - 1) + (if s[i-1] == c then 1 else 0)
  }

  /** Bytes smaller than `c` before position `i`. */
  ghost function Smaller(s: seq<byte>, c: int, i: nat): nat
    requires i <= |s|
  {
    if i == 0 then 0 else Smaller(s, c, i - 1) + (if s[i-1] < c then 1 else 0)
  }

  lemma {:induction false} OccursMonotone(s: seq<byte>, c: int, i: nat, j: nat)
    requires i <= j <= |s|
    ensures Occurs(s, c, i) <= Occurs(s, c, j)
    decreases j
  {
    if i < j {
      OccursMonotone(s, c, i, j - 1);
    }
  }

  lemma {:induction false} SmallerNext(s: seq<byte>, c: int, i: nat)
    requires i <= |s|
    ensures Smaller(s, c + 1, i) == Smaller(s, c, i) + Occurs(s, c, i)
  {
    if i > 0 {
      SmallerNext(s, c, i - 1);
    }
  }

  lemma {:induction false} SmallerMonotone(s: seq<byte>, c: int, d: int, i: nat)
    requires i <= |s| && c <= d
    ensures Smaller(s, c, i) <= Smaller(s, d, i)
  {
    if i > 0 {
      SmallerMonotone(s, c, d, i - 1);
    }
  }

  lemma {:induction false} SmallerEnds(s: seq<byte>, i: nat)
    requires i <= |s|
    ensures Smaller(s, 0, i) == 0 && Smaller(s, 256, i) == i
  {
    if i > 0 {
      SmallerEnds(s, i - 1);
    }
  }

  /** The index that the bucket sort gives to suffix `a`. */
  ghost function Slot(s: seq<byte>, a: nat): nat
    requires a <= |s|
  {
    if a == |s| then 0 else Smaller(s, s[a], |s|) + Occurs(s, s[a], a) + 1
  }

  /** The rank that the bucket sort gives to suffix `a`: the end of its bucket. */
  ghost function Rank(s: seq<byte>, a: nat): nat
    requires a <= |s|
  {
    if a == |s| then 0 else Smaller(s, s[a] as int + 1, |s|)
  }

  lemma SlotBounds(s: seq<byte>, a: nat)
    requires a < |s|
    ensures Smaller(s, s[a], |s|) < Slot(s, a) <= Rank(s, a) <= |s|
  {
    OccursMonotone(s, s[a], a + 1, |s|);
    SmallerNext(s, s[a], |s|);
    SmallerMonotone(s, s[a] as int + 1, 256, |s|);
    SmallerEnds(s, |s|);
  }

  lemma SlotOrder(s: seq<byte>, a: nat, b: nat)
    requires a < |s| && b < |s| && s[a] < s[b]
    ensures Rank(s, a) < Slot(s, b)
  {
    SlotBounds(s, b);
    SmallerMonotone(s, s[a] as int + 1, s[b], |s|);
  }

  lemma SlotInjective(s: seq<byte>, a: nat, b: nat)
    requires a <= |s| && b <= |s| && a != b
    ensures Slot(s, a) != Slot(s, b)
  {
    if a < |s| && b < |s| {
      SlotBounds(s, a);
      SlotBounds(s, b);
      if s[a] < s[b] {
        SlotOrder(s, a, b);
      } else if s[b] < s[a] {
        SlotOrder(s, b, a);
      } else if a < b {
        OccursMonotone(s, s[a], a + 1, b);
      } else {
        OccursMonotone(s, s[a], b + 1, a);
      }
    }
  }

  lemma {:induction false} NthOccurrence(s: seq<byte>, c: int, r: nat, i: nat) returns (a: nat)
    requires i <= |s| && r < Occurs(s, c, i)
    ensures a < i && s[a] == c && Occurs(s, c, a) == r
  {
    if r < Occurs(s, c, i - 1) {
      a := NthOccurrence(s, c, r, i - 1);
    } else {
      a := i - 1;
    }
  }

  lemma {:induction false} BucketOf(s: seq<byte>, k: nat, d: nat) returns (c: nat)
    requires 0 < k <= Smaller(s, d, |s|)
    ensures c < d && Smaller(s, c, |s|) < k <= Smaller(s, c + 1, |s|)
  {
    if d == 0 {
      SmallerEnds(s, |s|);
      assert false;
    } else if k <= Smaller(s, d - 1, |s|) {
      c := BucketOf(s, k, d - 1);
    } else {
      c := d - 1;
    }
  }

  /** Every index is the slot of some suffix. */
  lemma SlotSurjective(s: seq<byte>, k: nat) returns (a: nat)
    requires k <= |s|
    ensures a <= |s| && Slot(s, a) == k
  {
    if k == 0 {
      a := |s|;
    } else {
      SmallerEnds(s, |s|);
      var c := BucketOf(s, k, 256);
      SmallerNext(s, c, |s|);
      a := NthOccurrence(s, c, k - 1 - Smaller(s, c, |s|), |s|);
    }
  }

  ghost predicate Bucketed(s: seq<byte>, J: seq<int>, P: seq<int>, V: seq<int>) {
    && |J| == |P| == |V| == |s| + 1
    && (forall a :: 0 <= a <= |s| ==> P[a] == Slot(s, a) <= |s| && J[P[a]] == a)
    && (forall a :: 0 <= a <= |s| ==> V[a] == Rank(s, a))
  }

  lemma BucketedInverse(s: seq<byte>, J: seq<int>, P: seq<int>, V: seq<int>)
    requires Bucketed(s, J, P, V)
    ensures Inverse(J, P)
  {
    forall k | 0 <= k < |J|
      ensures 0 <= J[k] < |P| && P[J[k]] == k
    {
      var a := SlotSurjective(s, k);
      assert J[P[a]] == a;
    }
  }

  lemma BucketedRanked(s: seq<byte>, J: seq<int>, P: seq<int>, V: seq<int>)
    requires Bucketed(s, J, P, V)
    ensures Ranked(V, P)
  {
    forall a | 0 <= a < |P|
      ensures P[a] <= V[a] < |P|
    {
      if a < |s| {
        SlotBounds(s, a);
      }
    }
    forall a, b | 0 <= a < |P| && 0 <= b < |P| && P[a] <= P[b] <= V[a]
      ensures V[b] == V[a]
    {
      BucketedSameRank(s, a, b);
    }
  }

  lemma BucketedSameRank(s: seq<byte>, a: nat, b: nat)
    requires a <= |s| && b <= |s| && Slot(s, a) <= Slot(s, b) <= Rank(s, a)
    ensures Rank(s, a) == Rank(s, b)
  {
    if b < |s| {
      SlotBounds(s, b);
      if a < |s| {
        SlotBounds(s, a);
        if s[a] < s[b] {
          SlotOrder(s, a, b);
        } else if s[b] < s[a] {
          SlotOrder(s, b, a);
        }
      }
    } else if a < |s| {
      SlotBounds(s, a);
    }
  }

  lemma BucketedOrder(s: seq<byte>, a: nat, b: nat)
    requires a <= |s| && b <= |s| && a != b
    ensures Rank(s, a) < Rank(s, b) ==> SuffixLess(s, a, b)
    ensures Rank(s, a) == Rank(s, b) ==> SharePrefix(s, a, b, 1)
  {
    if a < |s| {
      SlotBounds(s, a);
    }
    if b < |s| {
      SlotBounds(s, b);
    }
    if a < |s| && b < |s| {
      if s[a] < s[b] {
        SlotOrder(s, a, b);
        assert LessAt(s, a, b, 0);
      } else if s[b] < s[a] {
        SlotOrder(s, b, a);
      }
    } else if a == |s| {
      assert LessAt(s, a, b, 0);
    }
  }

  /** After the bucket sort the invariant holds with one byte looked at. */
  lemma BucketedState(s: seq<byte>, J: seq<int>, P: seq<int>, V: seq<int>)
    requires Bucketed(s, J, P, V)
    ensures State(s, V, J, P, 1)
  {
    BucketedInverse(s, J, P, V);
    BucketedRanked(s, J, P, V);
    forall a, b | 0 <= a < |V| && 0 <= b < |V| && V[a] < V[b]
      ensures SuffixLess(s, a, b)
    {
      BucketedOrder(s, a, b);
    }
    forall a, b | 0 <= a < |V| && 0 <= b < |V| && a != b && V[a] == V[b]
      ensures SharePrefix(s, a, b, 1)
    {
      BucketedOrder(s, a, b);
    }
  }

  // ----- lines 126-137 -----

  /** Lines 126-130: `buckets[c]` becomes the number of bytes smaller than `c`. */
  method BucketStarts(s: seq<byte>) returns (buckets: array<int>)
    ensures fresh(buckets) && buckets.Length == 256
    ensures forall c :: 0 <= c < 256 ==> buckets[c] == Smaller(s, c, |s|)
  {
    buckets := new int[256](_ => 0);
    for i := 0 to |s|
      invariant forall c :: 0 <= c < 256 ==> buckets[c] == Occurs(s, c, i)
    {
      buckets[s[i]] := buckets[s[i]] + 1;
    }
    SmallerEnds(s, |s|);
    SmallerNext(s, 0, |s|);
    for i := 1 to 256
      invariant forall c :: 0 <= c < i ==> buckets[c] == Smaller(s, c + 1, |s|)
      invariant forall c :: i <= c < 256 ==> buckets[c] == Occurs(s, c, |s|)
    {
      SmallerNext(s, i, |s|);
      buckets[i] := buckets[i] + buckets[i-1];
    }
    var i := 255;
    while i > 0
      invariant 0 <= i <= 255
      invariant forall c :: 0 <= c <= i ==> buckets[c] == Smaller(s, c + 1, |s|)
      invariant forall c :: i < c < 256 ==> buckets[c] == Smaller(s, c, |s|)
    {
      assert buckets[i-1] == Smaller(s, i - 1 + 1, |s|);
      buckets[i] := buckets[i-1];
      i := i - 1;
    }
    buckets[0] := 0;
  }

  /** Lines 132-133: put every suffix at its slot. */
  method FillBuckets(s: seq<byte>, I: array<int>, buckets: array<int>)
    requires I != buckets && I.Length == |s| + 1 && buckets.Length == 256
    requires forall c :: 0 <= c < 256 ==> buckets[c] == Smaller(s, c, |s|)
    modifies I, buckets
    ensures forall a :: 0 <= a <= |s| ==> Slot(s, a) <= |s| && I[Slot(s, a)] == a
    ensures forall c :: 0 <= c < 256 ==> buckets[c] == Smaller(s, c + 1, |s|)
  {
    hide Smaller;
    for i := 0 to |s|
      invariant forall c :: 0 <= c < 256 ==> buckets[c] == Smaller(s, c, |s|) + Occurs(s, c, i)
      invariant forall a :: 0 <= a < i ==> 0 < Slot(s, a) <= |s| && I[Slot(s, a)] == a
    {
      SlotBounds(s, i);
      forall a | 0 <= a < i
        ensures Slot(s, a) != Slot(s, i)
      {
        SlotInjective(s, a, i);
      }
      buckets[s[i]] := buckets[s[i]] + 1;
      I[buckets[s[i]]] := i;
    }
    I[0] := |s|;
    forall c | 0 <= c < 256
      ensures buckets[c] == Smaller(s, c + 1, |s|)
    {
      SmallerNext(s, c, |s|);
    }
  }

  /** Lines 134-135: rank every suffix by the end of its bucket. */
  method RankBuckets(s: seq<byte>, I: array<int>, V: array<int>, buckets: array<int>) returns (ghost P: seq<int>)
    requires I != V && V != buckets && I.Length == V.Length == |s| + 1 && buckets.Length == 256
    requires forall a :: 0 <= a <= |s| ==> Slot(s, a) <= |s| && I[Slot(s, a)] == a
    requires forall c :: 0 <= c < 256 ==> buckets[c] == Smaller(s, c + 1, |s|)
    modifies V
    ensures Bucketed(s, I[..], P, V[..])
  {
    hide Smaller, Slot;
    for i := 0 to |s|
      invariant forall a :: 0 <= a < i ==> V[a] == Rank(s, a)
    {
      V[i] := buckets[s[i]];
    }
    V[|s|] := 0;
    P := seq(|s| + 1, a requires 0 <= a <= |s| => Slot(s, a));
  }
}
