/**
 Loading a partition in applypatch.c: a partition has no end-of-file, so the caller lists the sizes and
 SHA-1 sums it may have, and the shortest prefix with a listed sum is taken.
 */
module Partition {
  import opened Bytes
  import opened BsPatch

  const DIGEST := 20

  // ----- ParseSha1 -----

  function HexDigit(c: char): (r: Option<int>)
    ensures r.Some? ==> 0 <= r.value < 16
  {
    if '0' <= c <= '9' then Some(c as int - '0' as int)
    else if 'a' <= c <= 'f' then Some(c as int - 'a' as int + 10)
    else if 'A' <= c <= 'F' then Some(c as int - 'A' as int + 10)
    else None
  }

  predicate AllHex(s: seq<char>) {
    forall i :: 0 <= i < |s| ==> HexDigit(s[i]).Some?
  }

  /** The bytes that a run of pairs of hexadecimal digits stands for. */
  function FromHex(s: seq<char>): (r: seq<byte>)
    requires AllHex(s)
    ensures |r| == |s| / 2
  {
    if |s| < 2 then []
    else [16 * HexDigit(s[0]).value + HexDigit(s[1]).value] + FromHex(s[2..])
  }

  lemma {:induction false} FromHexSnoc(s: seq<char>, a: char, b: char)
    requires AllHex(s) && |s| % 2 == 0 && HexDigit(a).Some? && HexDigit(b).Some?
    ensures AllHex(s + [a, b])
    ensures FromHex(s + [a, b]) == FromHex(s) + [16 * HexDigit(a).value + HexDigit(b).value]
  {
    if s != [] {
      FromHexSnoc(s[2..], a, b);
      assert (s + [a, b])[2..] == s[2..] + [a, b];
    } else {
      assert s + [a, b] == [a, b];
    }
  }

  /** A digest: exactly 40 digits, of either case, and nothing after them. */
  method ParseSha1(s: seq<char>) returns (r: Option<seq<byte>>)
    ensures r.Some? <==> |s| == 2 * DIGEST && AllHex(s)
    ensures r.Some? ==> r.value == FromHex(s)
  {
    hide FromHex, AllHex;
    var digest: seq<byte> := [];
    var high: byte := 0;
    var i := 0;
    HexNone(s);
    while i < 2 * DIGEST
      invariant i <= |s| && i <= 2 * DIGEST && AllHex(s[..i])
      invariant i % 2 == 0 ==> digest == FromHex(s[..i])
      invariant i % 2 == 1 ==> AllHex(s[..i-1]) && digest == FromHex(s[..i-1])
      invariant i % 2 == 1 ==> HexDigit(s[i-1]).Some? && high == 16 * HexDigit(s[i-1]).value
    {
      HexAt(s, i);
      if i == |s| || HexDigit(s[i]).None? {
        return None;
      }
      var digit := HexDigit(s[i]).value;
      if i % 2 == 0 {
        high := 16 * digit;
      } else {
        FromHexSnoc(s[..i-1], s[i-1], s[i]);
        assert s[..i+1] == s[..i-1] + [s[i-1], s[i]];
        digest := digest + [high + digit];
      }
      i := i + 1;
    }
    if |s| > 2 * DIGEST {
      return None;
    }
    assert s[..i] == s;
    return Some(digest);
  }

  lemma HexNone(s: seq<char>)
    ensures AllHex(s[..0]) && FromHex(s[..0]) == []
  {
  }

  lemma HexAt(s: seq<char>, i: nat)
    requires i <= |s| && AllHex(s[..i])
    ensures i < |s| ==> (AllHex(s[..i+1]) <==> HexDigit(s[i]).Some?)
    ensures i < |s| && HexDigit(s[i]).None? ==> !AllHex(s)
  {
    hide HexDigit;
    if i < |s| {
      assert s[..i+1] == s[..i] + [s[i]];
    }
  }

  function HexChar(d: int): (c: char)
    requires 0 <= d < 16
    ensures HexDigit(c) == Some(d)
  {
    if d < 10 then '0' + d as char else 'a' + (d - 10) as char
  }

  /** The usual lower-case text of a digest. */
  function Hex(d: seq<byte>): (s: seq<char>)
    ensures |s| == 2 * |d|
  {
    if d == [] then [] else [HexChar(d[0] / 16), HexChar(d[0] % 16)] + Hex(d[1..])
  }

  lemma {:induction false} ParseHex(d: seq<byte>)
    ensures AllHex(Hex(d)) && FromHex(Hex(d)) == d
  {
    if d != [] {
      ParseHex(d[1..]);
      assert Hex(d)[2..] == Hex(d[1..]);
    }
  }

  /** The same text in upper case. */
  function Upper(s: seq<char>): (r: seq<char>)
    ensures |r| == |s|
  {
    seq(|s|, i requires 0 <= i < |s| => if 'a' <= s[i] <= 'z' then s[i] - 'a' + 'A' else s[i])
  }

  /** Case does not matter. */
  lemma {:induction false} ParseUpper(s: seq<char>)
    requires AllHex(s)
    ensures AllHex(Upper(s)) && FromHex(Upper(s)) == FromHex(s)
    decreases |s|
  {
    forall i | 0 <= i < |s|
      ensures HexDigit(Upper(s)[i]) == HexDigit(s[i])
    {
      assert HexDigit(s[i]).Some?;
    }
    if |s| >= 2 {
      ParseUpper(s[2..]);
      assert Upper(s)[2..] == Upper(s[2..]);
    }
  }

  const DIGITS := "0123456789abcdefABCDEF"

  /** Each of them has the value of its position in its own half. */
  lemma DigitValues(i: nat)
    requires i < |DIGITS|
    ensures HexDigit(DIGITS[i]) == Some(if i < 16 then i else i - 6)
  {
    hide DIGITS;
    DigitAt(i);
  }

  lemma DigitAt(i: nat)
    requires i < |DIGITS|
    ensures |DIGITS| == 22
    ensures DIGITS[i] as int == (if i < 10 then i + 48 else if i < 16 then i + 87 else i + 49)
  {
  }

  lemma DigitsExactly(c: char)
    ensures HexDigit(c).Some? <==> c in DIGITS
  {
    hide DIGITS;
    if c in DIGITS {
      var i :| 0 <= i < |DIGITS| && DIGITS[i] == c;
      DigitAt(i);
    }
    if HexDigit(c).Some? {
      var i: nat := HexDigit(c).value + if 'A' <= c <= 'F' then 6 else 0;
      DigitCount();
      DigitAt(i);
      assert DIGITS[i] as int == c as int;
    }
  }

  lemma DigitCount()
    ensures |DIGITS| == 22
  {
  }

  // ----- LoadPartitionContents -----

  datatype Choice = Choice(size: nat, sha1: seq<char>)

  /** The prefix of the listed size exists and has the listed sum. */
  predicate Matches(sha: seq<byte> -> seq<byte>, contents: seq<byte>, c: Choice) {
    && c.size <= |contents| && |c.sha1| == 2 * DIGEST && AllHex(c.sha1)
    && sha(contents[..c.size]) == FromHex(c.sha1)
  }

  predicate WellFormed(c: Choice) {
    |c.sha1| == 2 * DIGEST && AllHex(c.sha1)
  }

  /** What qsort leaves in index[]: every position once, by increasing size; ties in any order. */
  predicate Sorting(index: seq<nat>, choices: seq<Choice>) {
    && |index| == |choices|
    && (forall k :: 0 <= k < |index| ==> index[k] < |choices|)
    && (forall i: nat :: i < |choices| ==> i in index)
    && (forall j, k :: 0 <= j < k < |index| && index[j] < |choices| && index[k] < |choices| ==>
          choices[index[j]].size <= choices[index[k]].size)
  }

  /** Nothing before position k of the sorted list ends the search. */
  predicate Passed(sha: seq<byte> -> seq<byte>, contents: seq<byte>, index: seq<nat>, choices: seq<Choice>, k: int)
    requires Sorting(index, choices) && k <= |index|
  {
    forall j :: 0 <= j < k ==>
      var c := choices[index[j]];
      WellFormed(c) && c.size <= |contents| && !Matches(sha, contents, c)
  }

  /** Position k of the sorted list matches and is not hidden behind a malformed sum. */
  predicate Reached(sha: seq<byte> -> seq<byte>, contents: seq<byte>, index: seq<nat>, choices: seq<Choice>, k: int)
    requires Sorting(index, choices)
  {
    0 <= k < |index| && Matches(sha, contents, choices[index[k]]) && forall j :: 0 <= j < k ==>
      WellFormed(choices[index[j]])
  }

  /** Why the loop stopped at position `at` without a match. */
  predicate Blocked(sha: seq<byte> -> seq<byte>, contents: seq<byte>, index: seq<nat>, choices: seq<Choice>, at: int)
    requires Sorting(index, choices)
  {
    0 <= at <= |index| && Passed(sha, contents, index, choices, at) &&
    (at < |index| ==> choices[index[at]].size > |contents| || !WellFormed(choices[index[at]]))
  }

  lemma BlockedMeansUnreached(sha: seq<byte> -> seq<byte>, contents: seq<byte>, index: seq<nat>, choices: seq<Choice>,
                              at: int, k: int)
    requires Sorting(index, choices) && Blocked(sha, contents, index, choices, at)
    ensures !Reached(sha, contents, index, choices, k)
  {
  }

  lemma FirstIsSmallest(sha: seq<byte> -> seq<byte>, contents: seq<byte>, index: seq<nat>, choices: seq<Choice>,
                        at: int, i: nat)
    requires Sorting(index, choices) && 0 <= at < |index| && Passed(sha, contents, index, choices, at)
    requires i < |choices| && Matches(sha, contents, choices[i])
    ensures choices[index[at]].size <= choices[i].size
  {
    assert i in index;
    var k :| 0 <= k < |index| && index[k] == i;
  }

  /**
   The incremental read.  It succeeds exactly if some listed prefix matches that is not behind a malformed sum
   in the sorted order; a listed size beyond the partition does no harm.  What it returns is the prefix of the
   smallest listed size that matches, whatever order qsort gives to equal sizes.  With no pair at all the
   program looks at the last of none.
   */
  method LoadPartitionContents(sha: seq<byte> -> seq<byte>, choices: seq<Choice>, index: seq<nat>, contents: seq<byte>)
      returns (r: Result<seq<byte>>)
    requires Sorting(index, choices)
    ensures r.Undefined? <==> choices == []
    ensures r.Ok? <==>
      && (forall i :: 0 <= i < |choices| ==> choices[i].size != 0)
      && (exists k :: Reached(sha, contents, index, choices, k))
    ensures r.Ok? ==>
      && |r.value| <= |contents| && r.value == contents[..|r.value|]
      && (exists i :: 0 <= i < |choices| && choices[i].size == |r.value| && Matches(sha, contents, choices[i]))
      && (forall i :: 0 <= i < |choices| && Matches(sha, contents, choices[i]) ==> |r.value| <= choices[i].size)
  {
    hide FromHex, AllHex, Sorting;
    SortingFacts(index, choices);
    var i := 0;
    while i < |choices|
      invariant 0 <= i <= |choices| && forall j :: 0 <= j < i ==> choices[j].size != 0
    {
      if choices[i].size == 0 { return Failed; }
      i := i + 1;
    }
    if choices == [] { return Undefined; }
    var data: seq<byte> := [];
    i := 0;
    while i < |index|
      invariant 0 <= i <= |index| && Passed(sha, contents, index, choices, i)
      invariant |data| <= |contents| && data == contents[..|data|]
      invariant |data| == if i == 0 then 0 else choices[index[i-1]].size
    {
      var c := choices[index[i]];
      assert i > 0 ==> choices[index[i-1]].size <= c.size;
      if c.size > |contents| {
        forall k ensures !Reached(sha, contents, index, choices, k) {
          BlockedMeansUnreached(sha, contents, index, choices, i, k);
        }
        return Failed;
      }
      data := data + contents[|data|..c.size];
      assert data == contents[..c.size];
      var wanted := ParseSha1(c.sha1);
      if wanted.None? {
        forall k ensures !Reached(sha, contents, index, choices, k) {
          BlockedMeansUnreached(sha, contents, index, choices, i, k);
        }
        return Failed;
      }
      if sha(data) == wanted.value {
        assert Reached(sha, contents, index, choices, i);
        forall j | 0 <= j < |choices| && Matches(sha, contents, choices[j]) ensures c.size <= choices[j].size {
          FirstIsSmallest(sha, contents, index, choices, i, j);
        }
        return Ok(data);
      }
      i := i + 1;
    }
    forall k ensures !Reached(sha, contents, index, choices, k) {
      BlockedMeansUnreached(sha, contents, index, choices, i, k);
    }
    return Failed;
  }

  lemma SortingFacts(index: seq<nat>, choices: seq<Choice>)
    requires Sorting(index, choices)
    ensures |index| == |choices| && forall k :: 0 <= k < |index| ==> index[k] < |choices|
    ensures forall j, k :: 0 <= j < k < |index| ==> choices[index[j]].size <= choices[index[k]].size
  {
  }

  /** With well-formed sums, some position is reached exactly if some listed prefix matches. */
  lemma ReachedIfWellFormed(sha: seq<byte> -> seq<byte>, contents: seq<byte>, index: seq<nat>, choices: seq<Choice>)
    requires Sorting(index, choices) && forall i :: 0 <= i < |choices| ==> WellFormed(choices[i])
    ensures (exists k :: Reached(sha, contents, index, choices, k)) <==>
      exists i :: 0 <= i < |choices| && Matches(sha, contents, choices[i])
  {
    if i: nat :| i < |choices| && Matches(sha, contents, choices[i]) {
      assert i in index;
      var k :| 0 <= k < |index| && index[k] == i;
      assert Reached(sha, contents, index, choices, k);
    }
  }
}
