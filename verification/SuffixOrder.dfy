/**
 The order that the suffix sort of bsdiff establishes, and the invariant that its
 rank array keeps.  A suffix is named by its start `a` with `0 <= a <= |s|`; the
 empty suffix is the smallest.
 */
module SuffixOrder {
  import opened Bytes

  /** Suffixes `a` and `b` both have at least `h` bytes and agree on the first `h`. */
  ghost predicate SharePrefix(s: seq<byte>, a: nat, b: nat, h: nat) {
    a + h <= |s| && b + h <= |s| && s[a..a+h] == s[b..b+h]
  }

  /** Suffix `a` is smaller than suffix `b`, decided after `l` common bytes. */
  ghost predicate LessAt(s: seq<byte>, a: nat, b: nat, l: nat) {
    SharePrefix(s, a, b, l) && b + l < |s| && (a + l == |s| || s[a+l] < s[b+l])
  }

  /** Lexicographic order on suffixes. */
  ghost predicate SuffixLess(s: seq<byte>, a: nat, b: nat) {
    exists l: nat :: LessAt(s, a, b, l)
  }

  lemma SharePrefixExtend(s: seq<byte>, a: nat, b: nat, h: nat, l: nat)
    requires SharePrefix(s, a, b, h) && SharePrefix(s, a + h, b + h, l)
    ensures SharePrefix(s, a, b, h + l)
  {
    assert s[a..a+h+l] == s[a..a+h] + s[a+h..a+h+l];
    assert s[b..b+h+l] == s[b..b+h] + s[b+h..b+h+l];
  }

  lemma SuffixLessExtend(s: seq<byte>, a: nat, b: nat, h: nat)
    requires SharePrefix(s, a, b, h) && SuffixLess(s, a + h, b + h)
    ensures SuffixLess(s, a, b)
  {
    var l: nat :| LessAt(s, a + h, b + h, l);
    SharePrefixExtend(s, a, b, h, l);
    assert LessAt(s, a, b, h + l);
  }

  /** The order is strict: no suffix is below itself, and no two are below each other. */
  lemma SuffixLessAsymmetric(s: seq<byte>, a: nat, b: nat)
    requires SuffixLess(s, a, b)
    ensures a != b && !SuffixLess(s, b, a)
  {
  }

  // ----- the rank array -----

  /** `J` lists the positions 0..|P|-1, and `P` says where in `J` each one is. */
  ghost predicate Inverse(J: seq<int>, P: seq<int>) {
    && |J| == |P|
    && (forall k :: 0 <= k < |J| ==> 0 <= J[k] < |P| && P[J[k]] == k)
    && (forall a :: 0 <= a < |P| ==> 0 <= P[a] < |J| && J[P[a]] == a)
  }

  /** The rank of a position is the last index of its group, and groups are contiguous. */
  ghost predicate Ranked(V: seq<int>, P: seq<int>) {
    && |V| == |P|
    && (forall a :: 0 <= a < |P| ==> P[a] <= V[a] < |P|)
    && (forall a, b :: 0 <= a < |P| && 0 <= b < |P| && P[a] <= P[b] <= V[a] ==> V[b] == V[a])
  }

  /** Different ranks order suffixes correctly. */
  ghost predicate Ordered(s: seq<byte>, V: seq<int>) {
    forall a, b {:trigger SuffixLess(s, a, b)} ::
      0 <= a < |V| && 0 <= b < |V| && V[a] < V[b] ==> SuffixLess(s, a, b)
  }

  /** Equal ranks mean at least `h` common bytes. */
  ghost predicate Refined(s: seq<byte>, V: seq<int>, h: nat) {
    forall a, b {:trigger SharePrefix(s, a, b, h)} ::
      0 <= a < |V| && 0 <= b < |V| && a != b && V[a] == V[b] ==> SharePrefix(s, a, b, h)
  }

  ghost predicate State(s: seq<byte>, V: seq<int>, J: seq<int>, P: seq<int>, h: nat) {
    |V| == |s| + 1 && Inverse(J, P) && Ranked(V, P) && Ordered(s, V) && Refined(s, V, h)
  }

  /** Indices `lo..g` form (the rest of) one group, and everything before `lo` is ranked below it. */
  ghost predicate Group(V: seq<int>, P: seq<int>, lo: int, g: int) {
    && |V| == |P|
    && (forall a :: 0 <= a < |P| && lo <= P[a] <= g ==> V[a] == g)
    && (forall a :: 0 <= a < |P| && P[a] < lo ==> V[a] < lo)
  }

  /** Every suffix at an index in `lo..e-1` is below every suffix at an index in `e..g`. */
  ghost predicate Below(s: seq<byte>, P: seq<int>, lo: int, e: int, g: int) {
    forall a, b {:trigger SuffixLess(s, a, b)} ::
      0 <= a < |P| && 0 <= b < |P| && lo <= P[a] < e <= P[b] <= g ==> SuffixLess(s, a, b)
  }

  /** Positions at indices in `lo..e-1` that have equal ranks share `h` bytes. */
  ghost predicate Deep(s: seq<byte>, V: seq<int>, P: seq<int>, lo: int, e: int, h: nat) {
    |V| == |P| &&
    forall a, b {:trigger SharePrefix(s, a, b, h)} ::
      0 <= a < |P| && 0 <= b < |P| && a != b && lo <= P[a] < e && lo <= P[b] < e && V[a] == V[b]
      ==> SharePrefix(s, a, b, h)
  }

  /** The doubling step: ranks at distance `h` order, or deepen, a pair with `h` common bytes. */
  lemma KeyOrder(s: seq<byte>, V: seq<int>, h: nat, a: nat, b: nat)
    requires |V| == |s| + 1 && Ordered(s, V) && Refined(s, V, h)
    requires a < |V| && b < |V| && a != b && V[a] == V[b]
    ensures a + h <= |s| && b + h <= |s|
    ensures V[a+h] < V[b+h] ==> SuffixLess(s, a, b)
    ensures V[a+h] == V[b+h] ==> SharePrefix(s, a, b, 2 * h)
  {
    assert SharePrefix(s, a, b, h);
    if V[a+h] < V[b+h] {
      assert SuffixLess(s, a + h, b + h);
      SuffixLessExtend(s, a, b, h);
    } else if V[a+h] == V[b+h] {
      assert SharePrefix(s, a + h, b + h, h);
      SharePrefixExtend(s, a, b, h, h);
    }
  }

  /** `J2`, `P2` rearrange `J`, `P` inside `lo..e-1` and nowhere else. */
  ghost predicate Rearranged(J: seq<int>, P: seq<int>, J2: seq<int>, P2: seq<int>, lo: int, e: int) {
    && Inverse(J, P) && Inverse(J2, P2) && |J2| == |J|
    && (forall k :: 0 <= k < |J| && !(lo <= k < e) ==> J2[k] == J[k])
    && (forall a :: 0 <= a < |P| && !(lo <= P[a] < e) ==> P2[a] == P[a])
    && (forall a :: 0 <= a < |P| && lo <= P[a] < e ==> lo <= P2[a] < e)
  }

  lemma RearrangedRefl(J: seq<int>, P: seq<int>, lo: int, e: int)
    requires Inverse(J, P)
    ensures Rearranged(J, P, J, P, lo, e)
  {
  }

  lemma RearrangedTransitive(J: seq<int>, P: seq<int>, J2: seq<int>, P2: seq<int>, J3: seq<int>, P3: seq<int>,
                             lo: int, e: int)
    requires Rearranged(J, P, J2, P2, lo, e) && Rearranged(J2, P2, J3, P3, lo, e)
    ensures Rearranged(J, P, J3, P3, lo, e)
  {
  }

  lemma RearrangedWiden(J: seq<int>, P: seq<int>, J2: seq<int>, P2: seq<int>, lo: int, e: int, lo2: int, e2: int)
    requires Rearranged(J, P, J2, P2, lo, e) && lo2 <= lo && e <= e2
    ensures Rearranged(J, P, J2, P2, lo2, e2)
  {
  }

  function SwapJ(J: seq<int>, x: int, y: int): (r: seq<int>)
    requires 0 <= x < |J| && 0 <= y < |J|
  {
    J[x := J[y]][y := J[x]]
  }

  ghost function SwapP(J: seq<int>, P: seq<int>, x: int, y: int): seq<int>
    requires Inverse(J, P) && 0 <= x < |J| && 0 <= y < |J|
  {
    P[J[x] := y][J[y] := x]
  }

  lemma SwapRearranges(J: seq<int>, P: seq<int>, x: int, y: int, lo: int, e: int)
    requires Inverse(J, P) && 0 <= lo <= x < e <= |J| && lo <= y < e
    ensures Rearranged(J, P, SwapJ(J, x, y), SwapP(J, P, x, y), lo, e)
  {
  }

  lemma RearrangedSwap(J: seq<int>, P: seq<int>, J2: seq<int>, P2: seq<int>, x: int, y: int, lo: int, e: int)
    requires Rearranged(J, P, J2, P2, lo, e) && 0 <= lo <= x < e <= |J| && lo <= y < e
    ensures Inverse(SwapJ(J2, x, y), SwapP(J2, P2, x, y))
    ensures Rearranged(J, P, SwapJ(J2, x, y), SwapP(J2, P2, x, y), lo, e)
  {
    SwapRearranges(J2, P2, x, y, lo, e);
    RearrangedTransitive(J, P, J2, P2, SwapJ(J2, x, y), SwapP(J2, P2, x, y), lo, e);
  }

  /** Rearranging inside a group keeps the invariant. */
  lemma RearrangedKeeps(s: seq<byte>, V: seq<int>, J: seq<int>, P: seq<int>, J2: seq<int>, P2: seq<int>,
                        h: nat, lo: int, e: int, g: int)
    requires State(s, V, J, P, h) && Rearranged(J, P, J2, P2, lo, e)
    requires 0 <= lo <= e <= g + 1 <= |V| && Group(V, P, lo, g)
    ensures State(s, V, J2, P2, h) && Group(V, P2, lo, g)
  {
  }

  lemma RearrangedBelow(s: seq<byte>, J: seq<int>, P: seq<int>, J2: seq<int>, P2: seq<int>, lo: int, e: int, g: int)
    requires Rearranged(J, P, J2, P2, lo, e) && Below(s, P, lo, e, g) && lo <= e
    ensures Below(s, P2, lo, e, g)
  {
    forall a, b | 0 <= a < |P| && 0 <= b < |P| && lo <= P2[a] < e <= P2[b] <= g
      ensures SuffixLess(s, a, b)
    {
      assert lo <= P[a] < e;
      assert P2[b] == P[b];
    }
  }

  /** Giving the first part of a group its own rank keeps the invariant. */
  lemma CarveKeeps(s: seq<byte>, V: seq<int>, V2: seq<int>, J: seq<int>, P: seq<int>, h: nat, lo: int, hi: int, g: int)
    requires State(s, V, J, P, h) && 0 <= lo < hi <= g + 1 <= |V| && Group(V, P, lo, g)
    requires |V2| == |V| && forall a :: 0 <= a < |V| ==> V2[a] == if lo <= P[a] < hi then hi - 1 else V[a]
    requires Below(s, P, lo, hi, g)
    ensures State(s, V2, J, P, h)
    ensures Group(V2, P, hi, g)
  {
    CarveRanked(V, V2, P, lo, hi, g);
    forall a, b | 0 <= a < |V| && 0 <= b < |V| && V2[a] < V2[b]
      ensures SuffixLess(s, a, b)
    {
      if lo <= P[a] < hi && hi <= P[b] <= g {
      } else {
        assert V[a] < V[b];
      }
    }
    forall a, b | 0 <= a < |V| && 0 <= b < |V| && a != b && V2[a] == V2[b]
      ensures SharePrefix(s, a, b, h)
    {
      assert V[a] == V[b];
    }
  }

  lemma CarveRanked(V: seq<int>, V2: seq<int>, P: seq<int>, lo: int, hi: int, g: int)
    requires Ranked(V, P) && 0 <= lo < hi <= g + 1 <= |V| && Group(V, P, lo, g)
    requires |V2| == |V| && forall a :: 0 <= a < |V| ==> V2[a] == if lo <= P[a] < hi then hi - 1 else V[a]
    ensures Ranked(V2, P)
  {
  }
}
