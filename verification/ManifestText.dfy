/**
 The text of a dedupe manifest: how dedupe.c prints an entry and how it reads one back.
 */
module ManifestText {
  import opened BsPatch

  // ----- numbers -----

  function Digit(d: nat): (c: char)
    requires d < 10
  {
    '0' + d as char
  }

  predicate IsDigit(c: char) {
    '0' <= c <= '9'
  }

  /** printf("%d") and printf("%o") of a non-negative number. */
  function Printed(n: nat, base: nat): (s: string)
    requires base == 8 || base == 10
    ensures s != [] && forall i :: 0 <= i < |s| ==> IsDigit(s[i])
  {
    if n < base then [Digit(n)] else Printed(n / base, base) + [Digit(n % base)]
  }

  function PrintedInt(x: int): (s: string)
    ensures '\t' !in s && '\n' !in s
  {
    if x < 0 then ['-'] + Printed(-x, 10) else Printed(x, 10)
  }

  /** The digits at the front of `s`, appended to `acc`. */
  function Digits(s: string, acc: nat): (r: nat) {
    if s == [] || !IsDigit(s[0]) then acc else Digits(s[1..], acc * 10 + (s[0] - '0') as nat)
  }

  /** isspace in the C locale. */
  predicate Space(c: char) {
    c in {' ', '\t', '\n', '\U{0B}', '\U{0C}', '\r'}
  }

  function Atoi(s: string): (r: int) {
    if s == [] then 0
    else if Space(s[0]) then Atoi(s[1..])
    else if s[0] == '-' then -(Digits(s[1..], 0) as int)
    else if s[0] == '+' then Digits(s[1..], 0)
    else Digits(s, 0)
  }

  lemma {:induction false} DigitsAppend(s: string, c: char, acc: nat)
    requires IsDigit(c) && forall i :: 0 <= i < |s| ==> IsDigit(s[i])
    ensures Digits(s + [c], acc) == Digits(s, acc) * 10 + (c - '0') as nat
    decreases |s|
  {
    if s == [] {
      assert (s + [c])[1..] == [];
    } else {
      assert (s + [c])[1..] == s[1..] + [c];
      DigitsAppend(s[1..], c, acc * 10 + (s[0] - '0') as nat);
    }
  }

  /** Reading printed digits as decimal: itself for base 10, digit by digit for base 8. */
  lemma DigitsPrinted(n: nat, base: nat)
    requires base == 8 || base == 10
    ensures Digits(Printed(n, base), 0) == if n < base then n else Digits(Printed(n / base, base), 0) * 10 + n % base
  {
    if n < base {
      assert Printed(n, base)[1..] == [];
    } else {
      DigitsAppend(Printed(n / base, base), Digit(n % base), 0);
    }
  }

  lemma {:induction false} DigitsDecimal(n: nat)
    ensures Digits(Printed(n, 10), 0) == n
  {
    DigitsPrinted(n, 10);
    if n >= 10 {
      DigitsDecimal(n / 10);
    }
  }

  lemma AtoiPrinted(x: int)
    ensures Atoi(PrintedInt(x)) == x
  {
    if x < 0 {
      DigitsDecimal(-x);
      assert PrintedInt(x)[1..] == Printed(-x, 10);
    } else {
      DigitsDecimal(x);
    }
  }

  /** What dec_to_oct computes: the decimal digits of its argument taken as octal digits. */
  function DecToOct(dec: nat): (r: nat) {
    if dec == 0 then 0 else dec % 10 + 8 * DecToOct(dec / 10)
  }

  method ComputeDecToOct(dec: nat) returns (ret: nat)
    ensures ret == DecToOct(dec)
  {
    hide DecToOct;
    ret := 0;
    var mult: nat, d: nat := 1, dec;
    while d != 0
      invariant ret + mult * DecToOct(d) == DecToOct(dec)
    {
      DecToOctStep(d);
      Distribute(mult, d % 10, DecToOct(d / 10));
      ret := ret + (d % 10) * mult;
      d := d / 10;
      mult := mult * 8;
    }
    DecToOctStep(0);
  }

  lemma DecToOctStep(d: nat)
    ensures DecToOct(d) == if d == 0 then 0 else d % 10 + 8 * DecToOct(d / 10)
  {
  }

  lemma Distribute(m: nat, r: nat, q: nat)
    ensures m * (r + 8 * q) == r * m + (m * 8) * q
  {
  }

  /** dec_to_oct undoes octal printing, for every number. */
  lemma {:induction false} DecToOctPrinted(n: nat)
    ensures DecToOct(Digits(Printed(n, 8), 0)) == n
  {
    DigitsPrinted(n, 8);
    if n >= 8 {
      DecToOctPrinted(n / 8);
      var x := Digits(Printed(n / 8, 8), 0);
      assert (x * 10 + n % 8) % 10 == n % 8 && (x * 10 + n % 8) / 10 == x;
    }
  }

  // ----- fields -----

  /** tokenize: the text before the first `sep` and the text after it. */
  function Token(line: string, sep: char): (r: Option<(string, string)>) {
    if line == [] then None
    else if line[0] == sep then Some(([], line[1..]))
    else
      match Token(line[1..], sep)
      case None => None
      case Some((tok, rest)) => Some(([line[0]] + tok, rest))
  }

  method Tokenize(line: string, sep: char) returns (r: Option<(string, string)>)
    ensures r == Token(line, sep)
  {
    var out := [];
    var i := 0;
    assert line[0..] == line && forall tok: string :: [] + tok == tok;
    while i < |line| && line[i] != sep
      invariant 0 <= i <= |line|
      invariant Token(line, sep)
          == match Token(line[i..], sep) { case None => None case Some((tok, rest)) => Some((out + tok, rest)) }
    {
      assert line[i..][1..] == line[i+1..] && line[i..][0] == line[i];
      assert forall tok: string :: out + ([line[i]] + tok) == out + [line[i]] + tok;
      out := out + [line[i]];
      i := i + 1;
    }
    if i == |line| {
      return None;
    }
    assert line[i..][1..] == line[i+1..] && out + [] == out;
    return Some((out, line[i+1..]));
  }

  lemma {:induction false} TokenField(field: string, sep: char, rest: string)
    requires sep !in field
    ensures Token(field + [sep] + rest, sep) == Some((field, rest))
    decreases |field|
  {
    var line := field + [sep] + rest;
    if field == [] {
      assert line[1..] == rest;
    } else {
      assert line[1..] == field[1..] + [sep] + rest;
      TokenField(field[1..], sep, rest);
      assert [field[0]] + field[1..] == field;
    }
  }

  /** A list of tab-terminated fields. */
  function Joined(fields: seq<string>): (r: string) {
    if fields == [] then [] else fields[0] + ['\t'] + Joined(fields[1..])
  }

  /** Take `n` fields. */
  function Fields(line: string, n: nat): (r: Option<(seq<string>, string)>)
    ensures r.Some? ==> |r.value.0| == n
    decreases n
  {
    if n == 0 then Some(([], line))
    else
      match Token(line, '\t')
      case None => None
      case Some((f, rest)) =>
        match Fields(rest, n - 1)
        case None => None
        case Some((fs, end)) => Some(([f] + fs, end))
  }

  lemma {:induction false} FieldsJoined(fields: seq<string>, rest: string)
    requires forall i :: 0 <= i < |fields| ==> '\t' !in fields[i]
    ensures Fields(Joined(fields) + rest, |fields|) == Some((fields, rest))
    decreases |fields|
  {
    if fields != [] {
      var tail := fields[1..];
      assert Joined(fields) + rest == fields[0] + ['\t'] + (Joined(tail) + rest);
      TokenField(fields[0], '\t', Joined(tail) + rest);
      FieldsJoined(tail, rest);
      assert [fields[0]] + tail == fields;
    } else {
      assert Joined(fields) + rest == rest;
    }
  }

  // ----- entries -----

  /** The part of struct stat that is printed; `mode` holds permission, setuid and setgid bits. */
  datatype Meta = Meta(mode: nat, uid: int, gid: int, atime: nat, mtime: nat, ctime: nat)

  datatype Item =
    | FileItem(meta: Meta, path: string, key: string, size: int)
    | DirItem(meta: Meta, path: string)
    | LinkItem(meta: Meta, path: string, target: string)

  /** print_stat's fields. */
  function StatFields(kind: char, m: Meta, path: string): (r: seq<string>)
    ensures |r| == 8
  {
    [[kind], Printed(m.mode, 8), PrintedInt(m.uid), PrintedInt(m.gid), Printed(m.atime, 10), Printed(m.mtime, 10),
      Printed(m.ctime, 10), path]
  }

  /** One manifest line (lines 99-101, 160, 213, 224 of dedupe.c). */
  function PrintItem(i: Item): (r: string) {
    match i
    case FileItem(m, p, key, size) => Joined(StatFields('f', m, p)) + (Joined([key, PrintedInt(size)]) + "\n")
    case DirItem(m, p) => Joined(StatFields('d', m, p)) + "\n"
    case LinkItem(m, p, target) => Joined(StatFields('l', m, p)) + (Joined([target]) + "\n")
  }

  /** How many fields come before the name: version 1 has no times. */
  function StatCount(version: int): (n: nat) {
    if version >= 2 then 7 else 4
  }

  /** What the extraction makes of a line (lines 429-494). */
  function ParseItem(line: string, version: int): (r: Option<Item>) {
    match Fields(line, StatCount(version) + 1)
    case None => None
    case Some((f, rest)) =>
      var mode, path := Atoi(f[1]), f[StatCount(version)];
      var times := if version >= 2 then (Digits(f[4], 0), Digits(f[5], 0), Digits(f[6], 0)) else (0, 0, 0);
      var m := Meta(DecToOct(if mode < 0 then 0 else mode), Atoi(f[2]), Atoi(f[3]), times.0, times.1, times.2);
      if f[0] == "f" then
        match Fields(rest, 2)
        case None => None
        case Some((g, _)) => Some(FileItem(m, path, g[0], Atoi(g[1])))
      else if f[0] == "l" then
        match Fields(rest, 1)
        case None => None
        case Some((g, _)) => Some(LinkItem(m, path, g[0]))
      else if f[0] == "d" then Some(DirItem(m, path))
      else None
  }

  /**
   What gc takes from a line (lines 552-578): the key of a file, nothing of any other type.  None where it
   goes on behind a missing tab, through a null pointer.
   */
  function LineKeys(line: string, version: int): (r: Option<seq<string>>) {
    match Fields(line, StatCount(version))
    case None => None
    case Some((f, rest)) =>
      if f[0] != "f" then Some([])
      else
        match Fields(rest, 2)
        case None => None
        case Some((g, _)) => Some([g[1]])
  }

  /** Whatever the version, a file line names its key and another line none. */
  lemma LineKeysJoined(stat: seq<string>, path: string, key: string, rest: string, version: int)
    requires |stat| == StatCount(version) && (forall i :: 0 <= i < |stat| ==> '\t' !in stat[i]) && '\t' !in path
    requires '\t' !in key
    ensures LineKeys(Joined(stat) + (Joined([path, key]) + rest), version) == Some(if stat[0] == "f" then [key] else [])
    ensures stat[0] != "f" ==> LineKeys(Joined(stat) + rest, version) == Some([])
  {
    hide Joined, Fields;
    FieldsJoined(stat, Joined([path, key]) + rest);
    FieldsJoined([path, key], rest);
    FieldsJoined(stat, rest);
  }

  predicate Plain(s: string) {
    '\t' !in s && '\n' !in s
  }

  predicate PlainItem(i: Item) {
    Plain(i.path) && (i.FileItem? ==> Plain(i.key)) && (i.LinkItem? ==> Plain(i.target))
  }

  lemma AtoiDigits(s: string)
    requires s != [] && IsDigit(s[0])
    ensures Atoi(s) == Digits(s, 0)
  {
  }

  lemma MetaFields(kind: char, m: Meta, path: string, rest: string)
    requires kind != '\t' && Plain(path)
    ensures Fields(Joined(StatFields(kind, m, path)) + rest, 8) == Some((StatFields(kind, m, path), rest))
    ensures var f := StatFields(kind, m, path);
      Atoi(f[1]) >= 0 && m == Meta(DecToOct(Atoi(f[1])), Atoi(f[2]), Atoi(f[3]), Digits(f[4], 0), Digits(f[5], 0),
        Digits(f[6], 0))
  {
    hide Joined, Fields, Atoi, DecToOct, Printed, PrintedInt;
    var f := StatFields(kind, m, path);
    FieldsJoined(f, rest);
    AtoiDigits(f[1]);
    DecToOctPrinted(m.mode);
    AtoiPrinted(m.uid);
    AtoiPrinted(m.gid);
    DigitsDecimal(m.atime);
    DigitsDecimal(m.mtime);
    DigitsDecimal(m.ctime);
  }

  /** Every entry without tabs and newlines in its strings is read back as printed. */
  lemma ParsePrinted(i: Item)
    requires PlainItem(i)
    ensures ParseItem(PrintItem(i), 2) == Some(i)
  {
    hide Joined, Fields, Atoi, DecToOct, Printed, PrintedInt, Digits;
    match i
    case FileItem(m, p, key, size) =>
      MetaFields('f', m, p, Joined([key, PrintedInt(size)]) + "\n");
      FieldsJoined([key, PrintedInt(size)], "\n");
      AtoiPrinted(size);
    case DirItem(m, p) =>
      MetaFields('d', m, p, "\n");
    case LinkItem(m, p, target) =>
      MetaFields('l', m, p, Joined([target]) + "\n");
      FieldsJoined([target], "\n");
  }

  /** gc finds the key of a printed file entry. */
  lemma PrintedKeys(i: Item)
    requires PlainItem(i)
    ensures LineKeys(PrintItem(i), 2) == Some(if i.FileItem? then [i.key] else [])
  {
    hide Fields, Printed, PrintedInt;
    var kind := if i.FileItem? then 'f' else if i.DirItem? then 'd' else 'l';
    var all := StatFields(kind, i.meta, i.path);
    var stat := all[..7];
    assert all == stat + [i.path];
    JoinedAppend(stat, [i.path]);
    if i.FileItem? {
      var size := PrintedInt(i.size);
      FileTail(i.path, i.key, size);
      LineKeysJoined(stat, i.path, i.key, size + "\t" + "\n", 2);
      RegroupLine(Joined(stat), Joined([i.path]), Joined([i.key, size]), "\n");
    } else {
      assert stat[0][0] != 'f';
      var tail := if i.DirItem? then "\n" else Joined([i.target]) + "\n";
      LineKeysJoined(stat, i.path, [], Joined([i.path]) + tail, 2);
      assert Joined(stat) + Joined([i.path]) + tail == Joined(stat) + (Joined([i.path]) + tail);
    }
  }

  lemma {:induction false} JoinedAppend(a: seq<string>, b: seq<string>)
    ensures Joined(a + b) == Joined(a) + Joined(b)
    decreases |a|
  {
    if a == [] {
      assert a + b == b;
    } else {
      JoinedAppend(a[1..], b);
      assert (a + b)[1..] == a[1..] + b;
      assert a[0] + ['\t'] + (Joined(a[1..]) + Joined(b)) == a[0] + ['\t'] + Joined(a[1..]) + Joined(b);
    }
  }

  lemma FileTail(path: string, key: string, size: string)
    ensures Joined([path]) + (Joined([key, size]) + "\n") == Joined([path, key]) + (size + "\t" + "\n")
  {
    JoinedAppend([path], [key, size]);
    JoinedAppend([path, key], [size]);
    assert [path] + [key, size] == [path, key] + [size];
    assert Joined([size]) == size + ['\t'] + Joined([]);
    hide Joined;
    var a, b := Joined([path]) + Joined([key, size]) + "\n", Joined([path, key]) + Joined([size]) + "\n";
    assert a == b;
  }

  lemma RegroupLine(a: string, b: string, c: string, d: string)
    ensures a + b + (c + d) == a + (b + (c + d))
  {
  }

  // ----- lines of version 1, and lines that cannot be taken apart -----

  /** A file line of version 1 has no times. */
  lemma ParseOldFile(m: Meta, path: string, key: string, size: int)
    requires Plain(path) && Plain(key) && m.atime == m.mtime == m.ctime == 0
    ensures ParseItem(Joined(["f", Printed(m.mode, 8), PrintedInt(m.uid), PrintedInt(m.gid), path])
      + (Joined([key, PrintedInt(size)]) + "\n"), 1) == Some(FileItem(m, path, key, size))
  {
    hide Joined, Fields, Atoi, DecToOct, Printed, PrintedInt, Digits;
    var f := ["f", Printed(m.mode, 8), PrintedInt(m.uid), PrintedInt(m.gid), path];
    FieldsJoined(f, Joined([key, PrintedInt(size)]) + "\n");
    FieldsJoined([key, PrintedInt(size)], "\n");
    AtoiDigits(f[1]);
    DecToOctPrinted(m.mode);
    AtoiPrinted(m.uid);
    AtoiPrinted(m.gid);
    AtoiPrinted(size);
  }

  function Tabs(line: string): (n: nat) {
    if line == [] then 0 else (if line[0] == '\t' then 1 else 0) + Tabs(line[1..])
  }

  lemma {:induction false} TokenTabs(line: string)
    ensures Token(line, '\t').Some? <==> Tabs(line) > 0
    ensures Token(line, '\t').Some? ==> Tabs(Token(line, '\t').value.1) == Tabs(line) - 1
    decreases |line|
  {
    if line != [] {
      TokenTabs(line[1..]);
    }
  }

  lemma {:induction false} FieldsTabs(line: string, n: nat)
    ensures Fields(line, n).Some? <==> Tabs(line) >= n
    ensures Fields(line, n).Some? ==> Tabs(Fields(line, n).value.1) == Tabs(line) - n
    decreases n
  {
    hide Token, Tabs;
    TokenTabs(line);
    if n > 0 && Token(line, '\t').Some? {
      FieldsTabs(Token(line, '\t').value.1, n - 1);
    }
  }

  lemma FirstField(line: string, n: nat)
    requires n > 0
    ensures Fields(line, n).Some? ==>
      forall c :: c != '\t' ==> (Fields(line, n).value.0[0] == [c] <==> [c, '\t'] <= line)
  {
    hide Fields;
    if Fields(line, n).Some? {
      FieldsFirst(line, n);
      forall c | c != '\t'
        ensures Token(line, '\t').value.0 == [c] <==> [c, '\t'] <= line
      {
        OneChar(line, c);
      }
    }
  }

  lemma FieldsFirst(line: string, n: nat)
    requires n > 0 && Fields(line, n).Some?
    ensures Token(line, '\t').Some? && Fields(line, n).value.0[0] == Token(line, '\t').value.0
  {
  }

  lemma OneChar(line: string, c: char)
    requires Token(line, '\t').Some? && c != '\t'
    ensures Token(line, '\t').value.0 == [c] <==> [c, '\t'] <= line
  {
    if |line| >= 2 && line[0] != '\t' {
      var t := Token(line[1..], '\t').value;
      assert line[1..][0] == line[1];
      assert Token(line, '\t').value.0 == [line[0]] + t.0;
      assert t.0 == [] <==> line[1] == '\t';
      assert [c, '\t'] <= line <==> line[0] == c && line[1] == '\t';
    }
  }

  /** A line is an entry exactly if its type is f, d or l and it has the fields of its type. */
  lemma ParseItemExactly(line: string, version: int)
    ensures ParseItem(line, version).Some? <==>
      var n := if version >= 2 then 8 else 5;
      || ("d\t" <= line && Tabs(line) >= n) || ("f\t" <= line && Tabs(line) >= n + 2)
      || ("l\t" <= line && Tabs(line) >= n + 1)
  {
    hide Fields, Tabs, Atoi, DecToOct, Digits;
    var n := if version >= 2 then 8 else 5;
    FieldsTabs(line, n);
    FirstField(line, n);
    if Fields(line, n).Some? {
      FieldsTabs(Fields(line, n).value.1, 1);
      FieldsTabs(Fields(line, n).value.1, 2);
    }
  }

  /** gc can take a line apart exactly if it has the fields in front of the name, and a file line also the key. */
  lemma LineKeysExactly(line: string, version: int)
    ensures LineKeys(line, version).Some? <==>
      var n := if version >= 2 then 7 else 4;
      Tabs(line) >= n && ("f\t" <= line ==> Tabs(line) >= n + 2)
  {
    hide Fields, Tabs;
    var n := if version >= 2 then 7 else 4;
    FieldsTabs(line, n);
    FirstField(line, n);
    if Fields(line, n).Some? {
      FieldsTabs(Fields(line, n).value.1, 2);
    }
  }
}
