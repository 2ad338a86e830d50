/**
 dedupe.c: a content-addressed backup with manifests, extraction and garbage collection.

 A blob is named by the key of its contents (the printed hash, as `key`); names are relative to the
 blob directory.
 */
module Dedupe {
  import opened Bytes
  import opened BsPatch
  import opened ManifestText

  // ----- manifests as files -----

  const PATH_MAX := 4096
  const HEADER := "dedupe\t2\n"
  const DEDUPE_VERSION := 2

  /** fgets(line, PATH_MAX): up to and including a newline, at most PATH_MAX-1 characters. */
  function LineEnd(text: string, k: nat): (r: nat)
    requires k <= |text|
    ensures k <= r <= |text| && (k < |text| && k < PATH_MAX - 1 ==> k < r)
    decreases |text| - k
  {
    if k == |text| || k >= PATH_MAX - 1 then k else if text[k] == '\n' then k + 1 else LineEnd(text, k + 1)
  }

  function Lines(text: string): (r: seq<string>)
    decreases |text|
  {
    if text == [] then [] else var e := LineEnd(text, 0); [text[..e]] + Lines(text[e..])
  }

  function SkipSpace(s: string): (r: string) {
    if s != [] && Space(s[0]) then SkipSpace(s[1..]) else s
  }

  /** sscanf(line, "dedupe\t%d", &version): the tab stands for any white space, or none. */
  function ScanVersion(line: string): (r: Option<int>) {
    if !("dedupe" <= line) then None
    else
      var t := SkipSpace(line[6..]);
      if |t| > 0 && IsDigit(t[0]) then Some(Atoi(t))
      else if |t| > 1 && (t[0] == '-' || t[0] == '+') && IsDigit(t[1]) then Some(Atoi(t))
      else None
  }

  /** A manifest's version and its entry lines; one without a header is version 1 from its first line on. */
  datatype Body = Body(version: int, lines: seq<string>)

  function Open(text: string): (r: Body) {
    var lines := Lines(text);
    if lines == [] then Body(1, [])
    else
      match ScanVersion(lines[0])
      case Some(v) => Body(v, lines[1..])
      case None => Body(1, lines)
  }

  function ParseAll(lines: seq<string>, version: int): (r: Option<seq<Item>>) {
    if lines == [] then Some([])
    else
      match ParseItem(lines[0], version)
      case None => None
      case Some(i) =>
        match ParseAll(lines[1..], version)
        case None => None
        case Some(rest) => Some([i] + rest)
  }

  /** What the extraction reads in a manifest: its entries, unless it is too new or has a line that does not parse. */
  datatype Reading = Entries(items: seq<Item>) | TooNew | Unreadable

  function ReadManifest(text: string): (r: Reading) {
    var b := Open(text);
    if b.version > DEDUPE_VERSION then TooNew
    else
      match ParseAll(b.lines, b.version)
      case None => Unreadable
      case Some(items) => Entries(items)
  }

  /** The keys that the file entries name. */
  function Keys(items: seq<Item>): (r: seq<string>) {
    if items == [] then [] else (if items[0].FileItem? then [items[0].key] else []) + Keys(items[1..])
  }

  function KeysOf(lines: seq<string>, version: int): (r: Option<seq<string>>) {
    if lines == [] then Some([])
    else
      match LineKeys(lines[0], version)
      case None => None
      case Some(k) =>
        match KeysOf(lines[1..], version)
        case None => None
        case Some(rest) => Some(k + rest)
  }

  /**
   What gc takes from a manifest: its references, or that it is too new, or that a line crashes the program;
   in an empty one it looks for the version in a line it has not read.
   */
  datatype Taken = Refs(keys: seq<string>) | Newer | Crash | Blank

  function ReadKeys(text: string): (r: Taken) {
    var b := Open(text);
    if text == [] then Blank
    else if b.version > DEDUPE_VERSION then Newer
    else
      match KeysOf(b.lines, b.version)
      case None => Crash
      case Some(keys) => Refs(keys)
  }

  function PrintAll(items: seq<Item>): (r: string) {
    if items == [] then [] else PrintItem(items[0]) + PrintAll(items[1..])
  }

  /** One line each, within the line buffer; a link target within its 41-byte buffer. */
  predicate FitsBuffers(i: Item) {
    PlainItem(i) && |PrintItem(i)| < PATH_MAX && (i.LinkItem? ==> |i.target| <= 40)
  }

  /** A line with its newline at the end and nowhere else. */
  predicate OneLine(s: string) {
    s != [] && s[|s|-1] == '\n' && forall k :: 0 <= k < |s| - 1 ==> s[k] != '\n'
  }

  lemma {:induction false} LineEndOf(line: string, rest: string, k: nat)
    requires OneLine(line) && |line| < PATH_MAX && k < |line|
    ensures LineEnd(line + rest, k) == |line|
    decreases |line| - k
  {
    if k < |line| - 1 {
      assert (line + rest)[k] == line[k];
      LineEndOf(line, rest, k + 1);
    } else {
      assert (line + rest)[k] == '\n';
    }
  }

  lemma LinesCons(line: string, rest: string)
    requires OneLine(line) && |line| < PATH_MAX
    ensures Lines(line + rest) == [line] + Lines(rest)
  {
    LineEndOf(line, rest, 0);
    assert (line + rest)[..|line|] == line && (line + rest)[|line|..] == rest;
  }

  lemma {:induction false} JoinedNoNewline(fields: seq<string>)
    requires forall i :: 0 <= i < |fields| ==> '\n' !in fields[i]
    ensures '\n' !in Joined(fields)
    decreases |fields|
  {
    if fields != [] {
      JoinedNoNewline(fields[1..]);
    }
  }

  lemma EndsLine(body: string)
    requires '\n' !in body
    ensures OneLine(body + "\n")
  {
  }

  lemma PrintedOneLine(i: Item)
    requires PlainItem(i)
    ensures OneLine(PrintItem(i))
  {
    hide Joined, Printed, PrintedInt;
    var f := StatFields(if i.FileItem? then 'f' else if i.DirItem? then 'd' else 'l', i.meta, i.path);
    JoinedNoNewline(f);
    match i
    case FileItem(m, p, key, size) =>
      JoinedNoNewline([key, PrintedInt(size)]);
      assert Joined(f) + (Joined([key, PrintedInt(size)]) + "\n") == Joined(f) + Joined([key, PrintedInt(size)]) + "\n";
      EndsLine(Joined(f) + Joined([key, PrintedInt(size)]));
    case DirItem(m, p) =>
      EndsLine(Joined(f));
    case LinkItem(m, p, target) =>
      JoinedNoNewline([target]);
      assert Joined(f) + (Joined([target]) + "\n") == Joined(f) + Joined([target]) + "\n";
      EndsLine(Joined(f) + Joined([target]));
  }

  lemma {:induction false} ParsePrintAll(items: seq<Item>)
    requires forall i :: 0 <= i < |items| ==> FitsBuffers(items[i])
    ensures ParseAll(Lines(PrintAll(items)), 2) == Some(items) && KeysOf(Lines(PrintAll(items)), 2) == Some(Keys(items))
    decreases |items|
  {
    hide PrintItem, ParseItem, LineKeys;
    if items != [] {
      var i, rest := items[0], items[1..];
      ParsePrintAll(rest);
      PrintedKeys(i);
      PrintedOneLine(i);
      LinesCons(PrintItem(i), PrintAll(rest));
      ParsePrinted(i);
      assert ([PrintItem(i)] + Lines(PrintAll(rest)))[1..] == Lines(PrintAll(rest));
      assert [i] + rest == items;
    } else {
      assert Lines(PrintAll(items)) == [];
    }
  }

  /** A manifest that fits its buffers is read back entry by entry. */
  lemma ManifestRoundTrip(items: seq<Item>)
    requires forall i :: 0 <= i < |items| ==> FitsBuffers(items[i])
    ensures ReadManifest(HEADER + PrintAll(items)) == Entries(items)
    ensures ReadKeys(HEADER + PrintAll(items)) == Refs(Keys(items))
  {
    hide FitsBuffers, ParseAll, KeysOf, Lines, PrintAll, Open;
    ParsePrintAll(items);
    OpenPrinted(PrintAll(items));
  }

  /** What follows the header that store writes is version 2. */
  lemma OpenPrinted(rest: string)
    ensures Open(HEADER + rest) == Body(2, Lines(rest))
  {
    hide Lines, ScanVersion;
    LinesCons(HEADER, rest);
    HeaderVersion();
    var lines := Lines(HEADER + rest);
    assert lines == [HEADER] + Lines(rest);
    assert lines[0] == HEADER && lines[1..] == Lines(rest);
  }

  lemma HeaderVersion()
    ensures ScanVersion(HEADER) == Some(2)
  {
    var line: string := HEADER;
    assert line[..6] == "dedupe" && line[6..] == "\t2\n" && "\t2\n"[1..] == "2\n";
    assert SkipSpace("\t2\n") == SkipSpace("2\n") == "2\n";
    assert "2\n"[1..] == "\n";
    assert Digits("2\n", 0) == Digits("\n", 2);
  }

  lemma {:induction false} DigitsLine(s: string, acc: nat)
    requires forall i :: 0 <= i < |s| ==> IsDigit(s[i])
    ensures Digits(s + "\n", acc) == Digits(s, acc)
    decreases |s|
  {
    if s != [] {
      assert (s + "\n")[1..] == s[1..] + "\n";
      DigitsLine(s[1..], acc * 10 + (s[0] - '0') as nat);
    }
  }

  /** A header states the version in decimal. */
  lemma HeaderScanned(v: nat)
    ensures ScanVersion("dedupe\t" + Printed(v, 10) + "\n") == Some(v)
  {
    var s := Printed(v, 10);
    var line := "dedupe\t" + s + "\n";
    var t := s + "\n";
    AtoiPrinted(v);
    DigitsLine(s, 0);
    hide Printed, Digits;
    assert line[..6] == "dedupe" && line[6..] == "\t" + t && ("\t" + t)[1..] == t;
    assert IsDigit(t[0]) && IsDigit(s[0]);
    assert SkipSpace("\t" + t) == SkipSpace(t) == t;
    assert Atoi(t) == Digits(t, 0);
  }

  /** Nothing newer than version 2 is extracted, or collected from. */
  lemma NewerRefused(v: nat, rest: string)
    requires |Printed(v, 10)| < PATH_MAX - 8
    ensures var text := "dedupe\t" + Printed(v, 10) + "\n" + rest;
      && (v > 2 ==> ReadManifest(text).TooNew? && ReadKeys(text).Newer?)
      && (v <= 2 ==> !ReadManifest(text).TooNew? && !ReadKeys(text).Newer?)
  {
    hide ScanVersion, Lines, ParseAll, KeysOf;
    var line := "dedupe\t" + Printed(v, 10) + "\n";
    HeaderScanned(v);
    assert OneLine(line);
    LinesCons(line, rest);
    assert ([line] + Lines(rest))[1..] == Lines(rest);
  }

  // ----- garbage collection -----

  /** strcmp(a, b) < 0. */
  predicate Less(a: string, b: string) {
    b != [] && (a == [] || a[0] < b[0] || (a[0] == b[0] && Less(a[1..], b[1..])))
  }

  lemma {:induction false} LessTotal(a: string, b: string)
    ensures Less(a, b) || Less(b, a) || a == b
    ensures !(Less(a, b) && Less(b, a)) && !Less(a, a)
    decreases |a|
  {
    if a != [] && b != [] {
      LessTotal(a[1..], b[1..]);
      LessTotal(a[1..], a[1..]);
      assert a == [a[0]] + a[1..] && b == [b[0]] + b[1..];
    } else if a != [] {
      LessTotal(a[1..], a[1..]);
    }
  }

  lemma {:induction false} LessTransitive(a: string, b: string, c: string)
    requires Less(a, b) && Less(b, c)
    ensures Less(a, c)
    decreases |a|
  {
    if a != [] && a[0] == b[0] == c[0] {
      LessTransitive(a[1..], b[1..], c[1..]);
    }
  }

  /** In the order that qsort with string_compare leaves. */
  ghost predicate Sorted(s: seq<string>) {
    forall i, j :: 0 <= i < j < |s| ==> !Less(s[j], s[i])
  }

  /** The entries of `all` that are not in `used`, in order. */
  ghost function Unused(all: seq<string>, used: seq<string>): seq<string> {
    if all == [] then []
    else Unused(all[..|all|-1], used) + if all[|all|-1] in used then [] else [all[|all|-1]]
  }

  /** Everything before `j` is smaller than `x`, so `x` is in the list only if it is at `j` or later. */
  lemma BelowAbsent(used: seq<string>, j: nat, x: string)
    requires Sorted(used) && j <= |used|
    requires forall k :: 0 <= k < j ==> Less(used[k], x)
    requires j < |used| ==> Less(x, used[j])
    ensures x !in used
  {
    LessTotal(x, x);
    forall k | 0 <= k < |used|
      ensures used[k] != x
    {
      if k > j {
        assert !Less(used[k], used[j]);
      } else if k == j {
        LessTotal(x, used[j]);
      }
    }
  }

  lemma StillBelow(used: seq<string>, j: nat, all: seq<string>, i: nat)
    requires Sorted(all) && j <= |used| && 0 < i < |all| && forall k :: 0 <= k < j ==> Less(used[k], all[i-1])
    ensures forall k :: 0 <= k < j ==> Less(used[k], all[i])
  {
    forall k | 0 <= k < j
      ensures Less(used[k], all[i])
    {
      LessTotal(all[i-1], all[i]);
      if all[i-1] != all[i] {
        LessTransitive(used[k], all[i-1], all[i]);
      }
    }
  }

  /** Lines 588-603: the two-pointer sweep removes exactly the files that nothing references. */
  method Sweep(used: seq<string>, all: seq<string>) returns (removed: seq<string>)
    requires Sorted(used) && Sorted(all)
    ensures removed == Unused(all, used)
  {
    removed := [];
    var j := 0;
    for i := 0 to |all|
      invariant 0 <= j <= |used|
      invariant i > 0 ==> forall k :: 0 <= k < j ==> Less(used[k], all[i-1])
      invariant i == 0 ==> j == 0
      invariant removed == Unused(all[..i], used)
    {
      if i > 0 {
        StillBelow(used, j, all, i);
      }
      while j < |used| && Less(used[j], all[i])
        invariant 0 <= j <= |used|
        invariant forall k :: 0 <= k < j ==> Less(used[k], all[i])
      {
        j := j + 1;
      }
      assert all[..i+1][..i] == all[..i];
      if j >= |used| || Less(all[i], used[j]) {
        BelowAbsent(used, j, all[i]);
        removed := removed + [all[i]];
      } else {
        LessTotal(used[j], all[i]);
        assert used[j] == all[i];
      }
    }
    assert all[..|all|] == all;
  }

  /** qsort. */
  method Sort(s: seq<string>) returns (r: seq<string>)
    ensures Sorted(r) && multiset(r) == multiset(s)
  {
    r := [];
    for i := 0 to |s|
      invariant Sorted(r) && multiset(r) == multiset(s[..i])
    {
      var k := 0;
      while k < |r| && !Less(s[i], r[k])
        invariant 0 <= k <= |r|
        invariant forall m :: 0 <= m < k ==> !Less(s[i], r[m])
      {
        k := k + 1;
      }
      InsertSorted(r, k, s[i]);
      InsertMultiset(r, k, s[i]);
      assert s[..i+1] == s[..i] + [s[i]];
      r := r[..k] + [s[i]] + r[k..];
    }
    assert s[..|s|] == s;
  }

  lemma InsertMultiset(r: seq<string>, k: nat, x: string)
    requires k <= |r|
    ensures multiset(r[..k] + [x] + r[k..]) == multiset(r) + multiset{x}
  {
    assert r == r[..k] + r[k..];
  }

  lemma InsertSorted(r: seq<string>, k: nat, x: string)
    requires Sorted(r) && k <= |r| && (forall m :: 0 <= m < k ==> !Less(x, r[m])) && (k < |r| ==> Less(x, r[k]))
    ensures Sorted(r[..k] + [x] + r[k..])
  {
    forall m | k <= m < |r|
      ensures !Less(r[m], x)
    {
      LessTotal(x, r[k]);
      if Less(r[m], x) {
        LessTransitive(r[m], x, r[k]);
      }
    }
  }

  lemma {:induction false} UnusedMembers(all: seq<string>, used: seq<string>)
    ensures forall x :: x in Unused(all, used) <==> x in all && x !in used
    decreases |all|
  {
    if all != [] {
      UnusedMembers(all[..|all|-1], used);
      assert all == all[..|all|-1] + [all[|all|-1]];
    }
  }

  /** A manifest named on the gc command line. */
  datatype Manifest = Missing | Text(text: string)

  /** The references that gc collects, and whether it then deletes at all. */
  datatype Gathered = Collected(refs: seq<string>) | Abandoned | Unknown

  /**
   Lines 522-581: a manifest that cannot be opened, or crashes the program, ends the run; one that is too
   new only ends the collecting.
   */
  function Gather(ms: seq<Manifest>): (r: Gathered) {
    if ms == [] then Collected([])
    else if ms[0].Missing? then Abandoned
    else
      match ReadKeys(ms[0].text)
      case Crash => Abandoned
      case Blank => Unknown
      case Newer => Collected([])
      case Refs(keys) =>
        match Gather(ms[1..])
        case Abandoned => Abandoned
        case Unknown => Unknown
        case Collected(refs) => Collected(keys + refs)
  }

  type Store = map<string, seq<byte>>

  /** What gc leaves of a store, where that is known. */
  ghost function AfterGc(ms: seq<Manifest>, store: Store): Store {
    match Gather(ms)
    case Abandoned => store
    case Unknown => store
    case Collected(refs) => map k | k in store && k in refs :: store[k]
  }

  function After(used: seq<string>, g: Gathered): (r: Gathered) {
    match g
    case Abandoned => Abandoned
    case Unknown => Unknown
    case Collected(refs) => Collected(used + refs)
  }

  lemma AfterTwice(a: seq<string>, b: seq<string>, g: Gathered)
    ensures After(a, After(b, g)) == After(a + b, g)
  {
    if g.Collected? {
      assert a + (b + g.refs) == a + b + g.refs;
    }
  }

  lemma GatherStep(ms: seq<Manifest>, i: nat)
    requires i < |ms|
    ensures Gather(ms[i..]) ==
      if ms[i].Missing? || ReadKeys(ms[i].text).Crash? then Abandoned
      else if ReadKeys(ms[i].text).Blank? then Unknown
      else if ReadKeys(ms[i].text).Newer? then Collected([])
      else After(ReadKeys(ms[i].text).keys, Gather(ms[i+1..]))
  {
    assert ms[i..][0] == ms[i] && ms[i..][1..] == ms[i+1..];
  }

  method CollectReferences(ms: seq<Manifest>) returns (r: Gathered)
    ensures r == Gather(ms)
  {
    hide Gather, ReadKeys;
    var used := [];
    var i := 0;
    assert ms[0..] == ms;
    GatherEmpty();
    AfterNone(Gather(ms));
    while i < |ms|
      invariant 0 <= i <= |ms|
      invariant Gather(ms) == After(used, Gather(ms[i..]))
    {
      GatherStep(ms, i);
      if ms[i].Missing? { return Abandoned; }
      var m := ReadKeys(ms[i].text);
      if m.Crash? { return Abandoned; }
      if m.Blank? { return Unknown; }
      if m.Newer? {
        assert used + [] == used;
        return Collected(used);
      }
      AfterTwice(used, m.keys, Gather(ms[i+1..]));
      used := used + m.keys;
      i := i + 1;
    }
    assert ms[i..] == [] && used + [] == used;
    return Collected(used);
  }

  lemma GatherEmpty()
    ensures Gather([]) == Collected([])
  {
  }

  lemma AfterNone(g: Gathered)
    ensures After([], g) == g
  {
    if g.Collected? {
      assert [] + g.refs == g.refs;
    }
  }

  /** The gc command: afterwards the store is what `AfterGc` says, unless a manifest is empty. */
  method Gc(ms: seq<Manifest>, store: Store, listing: seq<string>) returns (left: Store)
    requires forall k :: k in store <==> k in listing
    ensures Gather(ms).Unknown? || left == AfterGc(ms, store)
  {
    var g := CollectReferences(ms);
    if g.Abandoned? || g.Unknown? {
      return store;
    }
    var used := Sort(g.refs);
    var all := Sort(listing);
    var removed := Sweep(used, all);
    SortedMembers(used, g.refs);
    SortedMembers(all, listing);
    UnusedMembers(all, used);
    left := map k | k in store && k !in removed :: store[k];
  }

  lemma SortedMembers(a: seq<string>, b: seq<string>)
    requires multiset(a) == multiset(b)
    ensures forall x :: x in a <==> x in b
  {
    forall x
      ensures x in a <==> x in b
    {
      assert x in a <==> x in multiset(a);
      assert x in b <==> x in multiset(b);
    }
  }

  /**
   A manifest that does not open, or crashes the program, ends the command before it deletes anything, if those
   in front of it have a supported version.
   */
  lemma {:induction false} UnreadableKeepsAll(ms: seq<Manifest>, i: nat, store: Store)
    requires i < |ms| && (ms[i].Missing? || ReadKeys(ms[i].text).Crash?)
    requires forall j :: 0 <= j < i ==> ms[j].Text? && ReadKeys(ms[j].text).Refs?
    ensures Gather(ms).Abandoned? && AfterGc(ms, store) == store
    decreases i
  {
    hide ReadKeys;
    if i > 0 {
      UnreadableKeepsAll(ms[1..], i - 1, store);
    }
  }

  /** All manifests open, have a supported version, with or without a header, and lines that can be taken apart. */
  ghost predicate Supported(ms: seq<Manifest>) {
    forall i :: 0 <= i < |ms| ==> ms[i].Text? && ReadKeys(ms[i].text).Refs?
  }

  /** Some manifest has a file line with this key. */
  ghost predicate Referenced(ms: seq<Manifest>, k: string) {
    exists i :: 0 <= i < |ms| && ms[i].Text? && ReadKeys(ms[i].text).Refs? && k in ReadKeys(ms[i].text).keys
  }

  lemma {:induction false} GatherSupported(ms: seq<Manifest>)
    requires Supported(ms)
    ensures Gather(ms).Collected? && forall k :: k in Gather(ms).refs <==> Referenced(ms, k)
    decreases |ms|
  {
    hide ReadKeys;
    if ms != [] {
      var tail := ms[1..];
      GatherSupported(tail);
      forall k
        ensures Referenced(ms, k) <==> k in ReadKeys(ms[0].text).keys || Referenced(tail, k)
      {
        if i :| 0 <= i < |ms| && ms[i].Text? && ReadKeys(ms[i].text).Refs? && k in ReadKeys(ms[i].text).keys {
          if i > 0 { assert tail[i-1] == ms[i]; }
        }
        if i :| 0 <= i < |tail| && tail[i].Text? && ReadKeys(tail[i].text).Refs? && k in ReadKeys(tail[i].text).keys {
          assert ms[i+1] == tail[i];
        }
      }
    }
  }

  /** With supported manifests gc removes a blob if and only if no manifest references it. */
  lemma GcExact(ms: seq<Manifest>, store: Store, k: string)
    requires Supported(ms) && k in store
    ensures k in AfterGc(ms, store) <==> Referenced(ms, k)
    ensures k in AfterGc(ms, store) ==> AfterGc(ms, store)[k] == store[k]
  {
    GatherSupported(ms);
  }

  /** A manifest of version 1, without header and times: gc takes its references like any other's. */
  lemma VersionOneKeys(mode: string, uid: string, gid: string, path: string, key: string, size: string)
    requires Plain(mode) && Plain(uid) && Plain(gid) && Plain(path) && Plain(key) && Plain(size)
    requires |mode| + |uid| + |gid| + |path| + |key| + |size| < PATH_MAX - 9
    ensures ReadKeys(Joined(["f", mode, uid, gid]) + (Joined([path, key]) + (size + "\t\n"))) == Refs([key])
  {
    hide LineKeys, Joined;
    var stat, tail := ["f", mode, uid, gid], size + "\t\n";
    var line := Joined(stat) + (Joined([path, key]) + tail);
    LineKeysJoined(stat, path, key, tail, 1);
    JoinedNoNewline(stat);
    JoinedNoNewline([path, key]);
    JoinedFour("f", mode, uid, gid);
    JoinedTwo(path, key);
    assert line == (Joined(stat) + Joined([path, key]) + size + "\t") + "\n";
    EndsLine(Joined(stat) + Joined([path, key]) + size + "\t");
    LinesCons(line, []);
    assert line + [] == line && Lines([]) == [];
    assert line[0] == 'f';
    var lines := [line];
    assert lines[1..] == [] && KeysOf([], 1) == Some([]) && [key] + [] == [key];
  }

  lemma JoinedFour(a: string, b: string, c: string, d: string)
    ensures Joined([a, b, c, d]) == a + "\t" + b + "\t" + c + "\t" + d + "\t"
  {
    JoinedTwo(a, b);
    JoinedTwo(c, d);
    JoinedAppend([a, b], [c, d]);
    assert [a, b] + [c, d] == [a, b, c, d];
  }

  lemma JoinedTwo(a: string, b: string)
    ensures Joined([a, b]) == a + "\t" + b + "\t"
  {
    assert [a, b][1..] == [b] && [b][1..] == [];
    assert Joined([b]) == b + ['\t'] + Joined([]);
  }

  lemma {:induction false} GatherStops(before: seq<Manifest>, bad: Manifest, after: seq<Manifest>)
    requires Supported(before) && bad.Text? && ReadKeys(bad.text).Newer?
    ensures Gather(before + [bad] + after) == Gather(before)
    decreases |before|
  {
    hide ReadKeys;
    var ms := before + [bad] + after;
    if before == [] {
      assert ms[0] == bad;
    } else {
      assert ms[0] == before[0] && ms[1..] == before[1..] + [bad] + after;
      GatherStops(before[1..], bad, after);
    }
  }

  /**
   A too-new manifest is where exactness ends: gc keeps a blob if and only if a manifest in front of
   it references the blob, so everything that only it or later manifests reference is deleted.
   */
  lemma TooNewLosesReferences(before: seq<Manifest>, bad: Manifest, after: seq<Manifest>, store: Store, k: string)
    requires Supported(before) && bad.Text? && ReadKeys(bad.text).Newer? && k in store
    ensures k in AfterGc(before + [bad] + after, store) <==> Referenced(before, k)
  {
    GatherStops(before, bad, after);
    GatherSupported(before);
  }
}
