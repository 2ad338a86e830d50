/**
 The INI reader of iniparse/ini.c, for any handler.
 */
module Ini {
  import opened ManifestText

  const MAX_LINE := 200
  const MAX_NAME := 50

  // ----- the scanning loops -----

  function RStrip(s: string): (r: string) {
    if s != [] && Space(s[|s|-1]) then RStrip(s[..|s|-1]) else s
  }

  function LSkip(s: string): (r: string) {
    if s != [] && Space(s[0]) then LSkip(s[1..]) else s
  }

  /** Where find_char_or_comment stops: at `c`, at a ';' after white space, or at the end. */
  function Stop(s: string, c: char, afterSpace: bool): (r: nat)
    ensures r <= |s|
  {
    if s == [] || s[0] == c || (afterSpace && s[0] == ';') then 0 else 1 + Stop(s[1..], c, Space(s[0]))
  }

  method Rstrip(s: string) returns (r: string)
    ensures r == RStrip(s)
  {
    var p := |s|;
    assert s[..|s|] == s;
    while p > 0 && Space(s[p-1])
      invariant 0 <= p <= |s| && RStrip(s[..p]) == RStrip(s)
    {
      assert s[..p][..p-1] == s[..p-1];
      p := p - 1;
    }
    return s[..p];
  }

  method Lskip(s: string) returns (r: string)
    ensures r == LSkip(s)
  {
    r := s;
    while r != [] && Space(r[0])
      invariant LSkip(r) == LSkip(s)
    {
      r := r[1..];
    }
  }

  method FindCharOrComment(s: string, c: char) returns (end: nat)
    ensures end == Stop(s, c, false)
  {
    end := 0;
    var afterSpace := false;
    while end < |s| && s[end] != c && !(afterSpace && s[end] == ';')
      invariant end <= |s| && Stop(s, c, false) == end + Stop(s[end..], c, afterSpace)
    {
      afterSpace := Space(s[end]);
      assert s[end..][1..] == s[end+1..];
      end := end + 1;
    }
  }

  // ----- lines -----

  /** The handler's answer: the record it filled, and whether it knew the name. */
  type Handler<!C> = (C, string, string, string) -> (C, bool)

  datatype Reader<C> = Reader(section: string, prev: string, error: nat, config: C)

  /** strncpy0 into a buffer of MAX_NAME bytes. */
  function Clip(s: string): (r: string) {
    if |s| < MAX_NAME then s else s[..MAX_NAME-1]
  }

  function Fail<C>(st: Reader<C>, lineno: nat): (r: Reader<C>) {
    if st.error == 0 then st.(error := lineno) else st
  }

  function Call<C>(h: Handler<C>, st: Reader<C>, name: string, value: string, lineno: nat): (r: Reader<C>) {
    var (config, known) := h(st.config, st.section, name, value);
    if known then st.(config := config) else Fail(st.(config := config), lineno)
  }

  /** The value in the text after '=': trimmed, and cut at a comment. */
  function ValueOf(s: string): (r: string) {
    var v := LSkip(s);
    RStrip(v[..Stop(v, '\0', false)])
  }

  function Pair<C>(h: Handler<C>, st: Reader<C>, start: string, lineno: nat): (r: Reader<C>) {
    var eq := Stop(start, '=', false);
    var end := if eq < |start| && start[eq] == '=' then eq else Stop(start, ':', false);
    if end < |start| && (start[end] == '=' || start[end] == ':') then
      var name := RStrip(start[..end]);
      Call(h, st.(prev := Clip(name)), name, ValueOf(start[end+1..]), lineno)
    else Fail(st, lineno)
  }

  /** A line as read, after the byte order mark; `moved` if one was skipped. */
  function Line<C>(h: Handler<C>, st: Reader<C>, line: string, moved: bool, lineno: nat): (r: Reader<C>) {
    var stripped := RStrip(line);
    var start := LSkip(stripped);
    if start == [] || start[0] == ';' || start[0] == '#' then st
    else if st.prev != [] && (moved || start != stripped) then Call(h, st, st.prev, start, lineno)
    else if start[0] == '[' then
      var end := Stop(start[1..], ']', false);
      if end < |start[1..]| && start[1..][end] == ']' then st.(section := Clip(start[1..][..end]), prev := [])
      else Fail(st, lineno)
    else Pair(h, st, start, lineno)
  }

  const BOM := ['\U{EF}', '\U{BB}', '\U{BF}']

  function AnyLine<C>(h: Handler<C>, st: Reader<C>, line: string, lineno: nat): (r: Reader<C>) {
    if lineno == 1 && BOM <= line then Line(h, st, line[3..], true, lineno) else Line(h, st, line, false, lineno)
  }

  // ----- files -----

  /** How much fgets takes: up to and including a newline, at most MAX_LINE - 1 characters. */
  function Taken(text: string, room: nat): (n: nat)
    ensures n <= |text| && n <= room && (text != [] && room > 0 ==> n > 0)
    decreases room
  {
    if text == [] || room == 0 then 0 else if text[0] == '\n' then 1 else 1 + Taken(text[1..], room - 1)
  }

  function ParseText<C>(h: Handler<C>, st: Reader<C>, text: string, lineno: nat): (r: Reader<C>)
    decreases |text|
  {
    if text == [] then st
    else
      var n := Taken(text, MAX_LINE - 1);
      ParseText(h, AnyLine(h, st, text[..n], lineno), text[n..], lineno + 1)
  }

  method ParseFile<C>(h: Handler<C>, config: C, text: string) returns (error: nat, filled: C)
    ensures var r := ParseText(h, Reader([], [], 0, config), text, 1); error == r.error && filled == r.config
  {
    var st := Reader([], [], 0, config);
    var lineno, rest := 1, text;
    while rest != []
      invariant ParseText(h, st, rest, lineno) == ParseText(h, Reader([], [], 0, config), text, 1)
      decreases |rest|
    {
      var n := Taken(rest, MAX_LINE - 1);
      st := AnyLine(h, st, rest[..n], lineno);
      rest := rest[n..];
      lineno := lineno + 1;
    }
    return st.error, st.config;
  }

  // ----- files written line by line -----

  function Text(lines: seq<string>): (r: string) {
    if lines == [] then [] else lines[0] + ['\n'] + Text(lines[1..])
  }

  function Fold<C>(h: Handler<C>, st: Reader<C>, lines: seq<string>, lineno: nat): (r: Reader<C>)
    decreases |lines|
  {
    if lines == [] then st else Fold(h, AnyLine(h, st, lines[0] + ['\n'], lineno), lines[1..], lineno + 1)
  }

  lemma {:induction false} TakenLine(line: string, rest: string, room: nat)
    requires '\n' !in line && |line| < room
    ensures Taken(line + ['\n'] + rest, room) == |line| + 1
    decreases |line|
  {
    var t := line + ['\n'] + rest;
    if line != [] {
      TakenLine(line[1..], rest, room - 1);
      assert t[1..] == line[1..] + ['\n'] + rest;
    }
  }

  /** The reader sees the lines that were written, if none is too long for its buffer. */
  lemma {:induction false} ParseLines<C>(h: Handler<C>, st: Reader<C>, lines: seq<string>, lineno: nat)
    requires forall i :: 0 <= i < |lines| ==> '\n' !in lines[i] && |lines[i]| < MAX_LINE - 1
    ensures ParseText(h, st, Text(lines), lineno) == Fold(h, st, lines, lineno)
    decreases |lines|
  {
    hide AnyLine, Taken;
    if lines != [] {
      var line, text := lines[0], Text(lines);
      TakenLine(line, Text(lines[1..]), MAX_LINE - 1);
      var n := |line| + 1;
      assert text[..n] == line + ['\n'] && text[n..] == Text(lines[1..]);
      ParseLines(h, AnyLine(h, st, line + ['\n'], lineno), lines[1..], lineno + 1);
    }
  }

  // ----- one printed line -----

  /** A value that survives: not empty, no white space at either end, and no ';' after white space. */
  predicate Clean(v: string) {
    && v != [] && !Space(v[0]) && !Space(v[|v|-1]) && '\0' !in v
    && forall i :: 0 < i < |v| && v[i] == ';' ==> !Space(v[i-1])
  }

  lemma {:induction false} StopBefore(v: string, rest: string, c: char, afterSpace: bool)
    requires c !in v && !(afterSpace && v != [] && v[0] == ';')
    requires forall i :: 0 < i < |v| && v[i] == ';' ==> !Space(v[i-1])
    ensures Stop(v + rest, c, afterSpace) == |v| + Stop(rest, c, if v == [] then afterSpace else Space(v[|v|-1]))
    decreases |v|
  {
    if v == [] {
      assert v + rest == rest;
    } else {
      assert (v + rest)[1..] == v[1..] + rest;
      StopBefore(v[1..], rest, c, Space(v[0]));
    }
  }

  lemma LSkipSpace(s: string)
    ensures LSkip([' '] + s) == LSkip(s)
  {
    assert ([' '] + s)[1..] == s;
  }

  lemma {:induction false} StripFacts(s: string)
    ensures RStrip(s) <= s && (RStrip(s) != [] ==> !Space(RStrip(s)[|RStrip(s)|-1]))
    ensures LSkip(s) != [] ==> !Space(LSkip(s)[0])
    decreases |s|
  {
    if s != [] {
      if Space(s[|s|-1]) { StripFacts(s[..|s|-1]); }
      if Space(s[0]) { StripFacts(s[1..]); }
    }
  }

  lemma {:induction false} StopsAtComment(s: string, c: char, afterSpace: bool, i: nat)
    requires 0 < i < |s| && s[i] == ';' && Space(s[i-1])
    ensures Stop(s, c, afterSpace) <= i
    decreases |s|
  {
    if !(s[0] == c || (afterSpace && s[0] == ';')) && i > 1 {
      StopsAtComment(s[1..], c, Space(s[0]), i - 1);
    }
  }

  lemma CleanRestored(v: string)
    requires Clean(v)
    ensures ValueOf([' '] + v + [' ', ';']) == v
  {
    var rest := [' ', ';'];
    assert [' '] + v + rest == [' '] + (v + rest);
    LSkipSpace(v + rest);
    assert LSkip(v + rest) == v + rest;
    StopBefore(v, rest, '\0', false);
    assert Stop(rest, '\0', false) == 1 by { assert rest[1..] == [';']; }
    assert Space(v[|v|-1]) == false;
    assert Stop(v + rest, '\0', false) == |v| + 1;
    assert (v + rest)[..|v|+1] == v + [' '];
    assert (v + [' '])[..|v|] == v;
    assert RStrip(v + [' ']) == RStrip(v) == v;
  }

  lemma EmptyNotRestored()
    ensures ValueOf([' ', ' ', ';']) == [';']
  {
    var s: string := [' ', ' ', ';'];
    assert s[1..] == [' ', ';'] && [' ', ';'][1..] == [';'];
    assert LSkip([';']) == [';'];
    assert [';'][1..] == [] && Stop([], '\0', false) == 0;
    assert [';'][..1] == [';'];
  }

  /** Which values survive being printed as " value ;" and read again: exactly the clean ones. */
  lemma RestoredExactly(v: string)
    requires '\0' !in v
    ensures ValueOf([' '] + v + [' ', ';']) == v <==> Clean(v)
  {
    if Clean(v) {
      CleanRestored(v);
    } else if ValueOf([' '] + v + [' ', ';']) == v {
      NotRestored(v);
    }
  }

  lemma NotRestored(v: string)
    requires '\0' !in v && ValueOf([' '] + v + [' ', ';']) == v
    ensures Clean(v)
  {
    hide RStrip, LSkip, Stop;
    var rest := [' ', ';'];
    var w := LSkip(v + rest);
    assert [' '] + v + rest == [' '] + (v + rest);
    LSkipSpace(v + rest);
    StripFacts(v + rest);
    StripFacts(w[..Stop(w, '\0', false)]);
    if v == [] {
      assert [' '] + v + rest == [' ', ' ', ';'];
      EmptyNotRestored();
    } else {
      assert v <= w && v[0] == w[0];
      LSkipNone(v + rest);
      forall i | 0 < i < |v| && v[i] == ';' ensures !Space(v[i-1]) {
        if Space(v[i-1]) {
          StopsAtComment(w, '\0', false, i);
        }
      }
    }
  }

  lemma LSkipNone(s: string)
    ensures s != [] && !Space(s[0]) ==> LSkip(s) == s
  {
  }

  /** A name as the settings use them: no white space and none of the characters with a meaning. */
  predicate Name(key: string) {
    key != [] && forall i :: 0 <= i < |key| ==> !Space(key[i]) && key[i] !in {';', '#', '[', '=', ':', '\U{EF}'}
  }

  lemma RStripNewline(s: string)
    requires s != [] && !Space(s[|s|-1])
    ensures RStrip(s + ['\n']) == s
  {
    assert (s + ['\n'])[..|s|] == s;
  }

  lemma FirstEquals(key: string, rest: string)
    requires Name(key)
    ensures Stop(key + [' ', '='] + rest, '=', false) == |key| + 1
  {
    var tail := [' ', '='] + rest;
    assert key + [' ', '='] + rest == key + tail;
    StopBefore(key, tail, '=', false);
    assert tail[1..][0] == '=';
  }

  /** "key = body": the handler is called with exactly that key. */
  lemma KeyLine<C>(h: Handler<C>, st: Reader<C>, key: string, body: string, lineno: nat)
    requires Name(key) && body != [] && !Space(body[|body|-1])
    ensures AnyLine(h, st, key + [' ', '='] + ([' '] + body) + ['\n'], lineno)
      == Call(h, st.(prev := Clip(key)), key, ValueOf([' '] + body), lineno)
  {
    hide RStrip, LSkip, Stop, Call, ValueOf;
    var start := key + [' ', '='] + ([' '] + body);
    var line := start + ['\n'];
    assert start[0] == key[0] && start[|start|-1] == body[|body|-1];
    RStripNewline(start);
    LSkipNone(start);
    FirstEquals(key, [' '] + body);
    assert start[..|key|+1] == key + [' '] && start[|key|+1..][1..] == [' '] + body;
    RStripSpace(key);
    assert line[0] == key[0];
  }

  lemma RStripSpace(key: string)
    requires key != [] && !Space(key[|key|-1])
    ensures RStrip(key + [' ']) == key
  {
    assert (key + [' '])[..|key|] == key;
  }

  lemma CommentLine<C>(h: Handler<C>, st: Reader<C>, text: string, lineno: nat)
    ensures AnyLine(h, st, [';'] + text + ['\n'], lineno) == st
  {
    var line := [';'] + text + ['\n'];
    assert line[0] == ';';
    StartsWith(line, ';');
    LSkipNone(RStrip(line));
  }

  lemma {:induction false} StartsWith(s: string, c: char)
    requires s != [] && s[0] == c && !Space(c)
    ensures RStrip(s) != [] && RStrip(s)[0] == c
    decreases |s|
  {
    if Space(s[|s|-1]) {
      StartsWith(s[..|s|-1], c);
    }
  }

  lemma BlankLine<C>(h: Handler<C>, st: Reader<C>, lineno: nat)
    ensures AnyLine(h, st, ['\n'], lineno) == st
  {
    assert ['\n'][..0] == [];
  }

  lemma SectionLine<C>(h: Handler<C>, st: Reader<C>, name: string, lineno: nat)
    requires Name(name) && ']' !in name && |name| < MAX_NAME && st.prev == []
    ensures AnyLine(h, st, ['['] + name + [']'] + ['\n'], lineno) == st.(section := name)
  {
    var start := ['['] + name + [']'];
    RStripNewline(start);
    LSkipNone(start);
    assert start[1..] == name + [']'];
    StopBefore(name, [']'], ']', false);
    assert start[1..][..|name|] == name;
    assert (start + ['\n'])[0] == '[';
  }

  // ----- the other lines -----

  predicate Spaces(s: string) {
    forall i :: 0 <= i < |s| ==> Space(s[i])
  }

  lemma {:induction false} RStripKeeps(a: string, b: string)
    requires RStrip(b) != []
    ensures RStrip(a + b) == a + RStrip(b)
    decreases |b|
  {
    var s := a + b;
    assert s[|s|-1] == b[|b|-1];
    if Space(b[|b|-1]) {
      assert s[..|s|-1] == a + b[..|b|-1];
      RStripKeeps(a, b[..|b|-1]);
    }
  }

  lemma {:induction false} LSkipSpaces(a: string, s: string)
    requires Spaces(a)
    ensures LSkip(a + s) == LSkip(s)
    decreases |a|
  {
    if a == [] {
      assert a + s == s;
    } else {
      assert (a + s)[1..] == a[1..] + s;
      LSkipSpaces(a[1..], s);
    }
  }

  lemma Trimmed(indent: string, text: string)
    requires Spaces(indent) && text != [] && !Space(text[0]) && !Space(text[|text|-1])
    ensures RStrip(indent + text + ['\n']) == indent + text && LSkip(indent + text) == text
    ensures (indent + text == text) == (indent == [])
  {
    RStripNewline(text);
    RStripKeeps(indent, text + ['\n']);
    assert indent + (text + ['\n']) == indent + text + ['\n'];
    LSkipSpaces(indent, text);
    LSkipNone(text);
    assert |indent + text| == |indent| + |text|;
  }

  /** A comment, also with '#', and also indented. */
  lemma CommentExactly<C>(h: Handler<C>, st: Reader<C>, indent: string, text: string, lineno: nat)
    requires Spaces(indent) && text != [] && text[0] in {';', '#'} && !Space(text[|text|-1]) && lineno > 1
    ensures AnyLine(h, st, indent + text + ['\n'], lineno) == st
  {
    hide RStrip, LSkip;
    Trimmed(indent, text);
  }

  /** An indented line behind a pair is one more value for the same name. */
  lemma ContinuationLine<C>(h: Handler<C>, st: Reader<C>, indent: string, value: string, lineno: nat)
    requires Spaces(indent) && indent != [] && st.prev != [] && lineno > 1
    requires value != [] && !Space(value[0]) && !Space(value[|value|-1]) && value[0] !in {';', '#'}
    ensures AnyLine(h, st, indent + value + ['\n'], lineno) == Call(h, st, st.prev, value, lineno)
  {
    hide RStrip, LSkip, Call, Pair;
    Trimmed(indent, value);
  }

  lemma PairLine<C>(h: Handler<C>, st: Reader<C>, text: string, lineno: nat)
    requires text != [] && !Space(text[0]) && !Space(text[|text|-1]) && text[0] !in {';', '#', '['} && lineno > 1
    ensures AnyLine(h, st, text + ['\n'], lineno) == Pair(h, st, text, lineno)
  {
    hide RStrip, LSkip, Pair;
    Trimmed([], text);
    assert [] + text == text;
  }

  lemma {:induction false} StopIsAt(s: string, c: char, afterSpace: bool)
    requires c !in s
    ensures var n := Stop(s, c, afterSpace); n < |s| ==> s[n] == ';'
    decreases |s|
  {
    if s != [] && !(afterSpace && s[0] == ';') {
      StopIsAt(s[1..], c, Space(s[0]));
    }
  }

  /** A line without '=' and ':' is an error, and only the first error counts. */
  lemma BadLine<C>(h: Handler<C>, st: Reader<C>, text: string, lineno: nat)
    requires text != [] && !Space(text[0]) && !Space(text[|text|-1]) && text[0] !in {';', '#', '['} && lineno > 1
    requires '=' !in text && ':' !in text
    ensures AnyLine(h, st, text + ['\n'], lineno) == st.(error := if st.error == 0 then lineno else st.error)
  {
    hide AnyLine, Stop, Call;
    PairLine(h, st, text, lineno);
    StopIsAt(text, '=', false);
    StopIsAt(text, ':', false);
  }

  /** "key: body" is a pair like "key = body". */
  lemma ColonLine<C>(h: Handler<C>, st: Reader<C>, key: string, body: string, lineno: nat)
    requires Name(key) && body != [] && !Space(body[|body|-1]) && '=' !in body && lineno > 1
    ensures AnyLine(h, st, key + ([':'] + body) + ['\n'], lineno)
      == Call(h, st.(prev := Clip(key)), key, ValueOf(body), lineno)
  {
    hide AnyLine, RStrip, Stop, Call, ValueOf;
    var text := key + ([':'] + body);
    assert text[0] == key[0] && text[|text|-1] == body[|body|-1];
    PairLine(h, st, text, lineno);
    StopIsAt(text, '=', false);
    StopBefore(key, [':'] + body, ':', false);
    StopHere([':'] + body, ':', Space(key[|key|-1]));
    assert text[..|key|] == key && text[|key|+1..] == body && text[|key|] == ':';
    RStripNone(key);
  }

  lemma StopHere(s: string, c: char, afterSpace: bool)
    requires s != [] && s[0] == c
    ensures Stop(s, c, afterSpace) == 0
  {
  }

  lemma RStripNone(s: string)
    requires s != [] && !Space(s[|s|-1])
    ensures RStrip(s) == s
  {
  }

  /** The names of sections and continued pairs are cut at 49 characters. */
  lemma LongSection<C>(h: Handler<C>, st: Reader<C>, name: string, lineno: nat)
    requires Name(name) && ']' !in name && st.prev == [] && lineno > 1
    ensures AnyLine(h, st, ['['] + name + [']'] + ['\n'], lineno)
      == st.(section := if |name| > 49 then name[..49] else name)
  {
    hide RStrip, LSkip, Stop, Pair;
    var start := ['['] + name + [']'];
    Trimmed([], start);
    assert [] + start == start;
    assert start[1..] == name + [']'];
    StopBefore(name, [']'], ']', false);
    StopHere([']'], ']', Space(name[|name|-1]));
    assert start[1..][..|name|] == name;
  }

  /** A byte order mark in front of the first line does not count. */
  lemma MarkSkipped<C>(h: Handler<C>, st: Reader<C>, line: string)
    requires st.prev == [] && !(BOM <= line)
    ensures AnyLine(h, st, BOM + line, 1) == AnyLine(h, st, line, 1)
  {
    hide Pair;
    assert (BOM + line)[3..] == line;
  }

  /** Once there is an error its line stays the one that is reported; a line can only report itself. */
  lemma LineError<C>(h: Handler<C>, st: Reader<C>, line: string, lineno: nat)
    ensures var r := AnyLine(h, st, line, lineno);
      r.error == st.error || (st.error == 0 && r.error == lineno)
  {
    hide RStrip, LSkip, Stop;
  }

  lemma {:induction false} FirstError<C>(h: Handler<C>, st: Reader<C>, text: string, lineno: nat)
    requires lineno > 0
    ensures var r := ParseText(h, st, text, lineno);
      if st.error != 0 then r.error == st.error else r.error == 0 || r.error >= lineno
    decreases |text|
  {
    hide AnyLine, Taken;
    if text != [] {
      var n := Taken(text, MAX_LINE - 1);
      LineError(h, st, text[..n], lineno);
      FirstError(h, AnyLine(h, st, text[..n], lineno), text[n..], lineno + 1);
    }
  }

  lemma {:induction false} TakenFull(text: string, room: nat)
    requires room <= |text| && '\n' !in text[..room]
    ensures Taken(text, room) == room
    decreases room
  {
    if room > 0 {
      assert text[..room][0] == text[0] && text[1..][..room-1] == text[..room][1..];
      TakenFull(text[1..], room - 1);
    }
  }

  /** A line of 199 characters or more is read as several. */
  lemma LongLine<C>(h: Handler<C>, st: Reader<C>, text: string, lineno: nat)
    requires |text| >= 199 && '\n' !in text[..199]
    ensures ParseText(h, st, text, lineno)
      == ParseText(h, AnyLine(h, st, text[..199], lineno), text[199..], lineno + 1)
  {
    hide AnyLine, Taken;
    TakenFull(text, 199);
  }
}
