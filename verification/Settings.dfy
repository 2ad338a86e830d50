/**
 The settings file of settingshandler.c: update_cot_settings prints the record and parse_settings reads it.
 Printer and handler are tables over the eleven fields.
 */
module Settings {
  import opened ManifestText
  import opened Ini

  datatype Settings = Settings(
    theme: string, sdTheme: int, orsReboot: int, orsWipePrompt: int, backupPrompt: int, signatureCheck: int,
    backupFormat: int, maxX: int, maxY: int, touchY: int, language: string)

  const FIELDS: nat := 11

  // ----- the handler -----

  /** The names that settings_handler compares with. */
  function Known(i: nat): (s: string) {
    match i
    case 0 => "theme"
    case 1 => "sdtheme"
    case 2 => "orsreboot"
    case 3 => "orswipeprompt"
    case 4 => "backupprompt"
    case 5 => "signaturecheckenabled"
    case 6 => "backupformat"
    case 7 => "maxX"
    case 8 => "maxY"
    case 9 => "touchY"
    case _ => "language"
  }

  /** The field that a name stands for gets the value, or the number in it. */
  function Put(c: Settings, i: nat, value: string): (r: Settings) {
    match i
    case 0 => c.(theme := value)
    case 1 => c.(sdTheme := Atoi(value))
    case 2 => c.(orsReboot := Atoi(value))
    case 3 => c.(orsWipePrompt := Atoi(value))
    case 4 => c.(backupPrompt := Atoi(value))
    case 5 => c.(signatureCheck := Atoi(value))
    case 6 => c.(backupFormat := Atoi(value))
    case 7 => c.(maxX := Atoi(value))
    case 8 => c.(maxY := Atoi(value))
    case 9 => c.(touchY := Atoi(value))
    case _ => c.(language := value)
  }

  function LowerChar(c: char): (r: char) {
    if 'A' <= c <= 'Z' then c - 'A' + 'a' else c
  }

  /** strcasecmp(a, b) == 0. */
  predicate SameName(a: string, b: string) {
    |a| == |b| && forall k :: 0 <= k < |a| ==> LowerChar(a[k]) == LowerChar(b[k])
  }

  /** The first field, from `i` on, with this name. */
  function Lookup(name: string, i: nat): (r: nat)
    requires i <= FIELDS
    ensures i <= r <= FIELDS
    decreases FIELDS - i
  {
    if i == FIELDS || SameName(name, Known(i)) then i else Lookup(name, i + 1)
  }

  /** settings_handler: an unknown section or name is refused. */
  function Fill(c: Settings, section: string, name: string, value: string): (r: (Settings, bool)) {
    var i := Lookup(name, 0);
    if SameName(section, "settings") && i < FIELDS then (Put(c, i, value), true) else (c, false)
  }

  // ----- the printer -----

  /** The names that update_cot_settings prints. */
  function Key(i: nat): (s: string) {
    match i
    case 0 => "Theme"
    case 1 => "SDTheme"
    case 2 => "ORSReboot"
    case 3 => "ORSWipePrompt"
    case 4 => "BackupPrompt"
    case 5 => "SignatureCheckEnabled"
    case 6 => "BackupFormat"
    case 7 => "maxX"
    case 8 => "maxY"
    case 9 => "touchY"
    case _ => "Language"
  }

  predicate IsText(i: nat) {
    i == 0 || i == 10
  }

  function Text(c: Settings, i: nat): (s: string) {
    if i == 0 then c.theme else c.language
  }

  function Number(c: Settings, i: nat): (x: int) {
    match i
    case 1 => c.sdTheme
    case 2 => c.orsReboot
    case 3 => c.orsWipePrompt
    case 4 => c.backupPrompt
    case 5 => c.signatureCheck
    case 6 => c.backupFormat
    case 7 => c.maxX
    case 8 => c.maxY
    case _ => c.touchY
  }

  /** %s or %i of the field, and the end of its line; SDTheme has no space before its semicolon. */
  function Body(c: Settings, i: nat): (s: string) {
    (if IsText(i) then Text(c, i) else PrintedInt(Number(c, i))) + (if i == 1 then [';'] else [' ', ';'])
  }

  function Entry(key: string, body: string): (r: string) {
    key + [' ', '='] + ([' '] + body)
  }

  function Entries(c: Settings, i: nat): (r: seq<string>)
    requires i <= FIELDS
    decreases FIELDS - i
  {
    if i == FIELDS then [""] else [Entry(Key(i), Body(c, i))] + Entries(c, i + 1)
  }

  const HEAD: seq<string> := [";", "; COT Settings INI", ";", "", "[Settings]"]

  function Print(c: Settings): (r: string) {
    Ini.Text(HEAD + Entries(c, 0))
  }

  predicate Int32(x: int) {
    -0x8000_0000 <= x < 0x8000_0000
  }

  /** Every field is printed on one line, which fits the reader's buffer. */
  predicate Printable(c: Settings) {
    forall i: nat :: i < FIELDS ==>
      if IsText(i) then '\n' !in Text(c, i) && '\0' !in Text(c, i) && |Key(i)| + |Text(c, i)| <= 193
      else Int32(Number(c, i))
  }

  /** What a printed record is read as: its strings trimmed and cut like every other value. */
  function Restored(c: Settings): (r: Settings) {
    c.(theme := ValueOf([' '] + Body(c, 0)), language := ValueOf([' '] + Body(c, 10)))
  }

  lemma RestoredFields(c: Settings, i: nat)
    requires i < FIELDS
    ensures if IsText(i) then Text(Restored(c), i) == ValueOf([' '] + Body(c, i))
      else Number(Restored(c), i) == Number(c, i)
  {
    hide ValueOf, Body;
  }

  // ----- numbers -----

  lemma {:induction false} DigitsStop(s: string, acc: nat)
    requires forall i :: 0 <= i < |s| ==> IsDigit(s[i])
    ensures Digits(s + [';'], acc) == Digits(s, acc)
    decreases |s|
  {
    if s != [] {
      assert (s + [';'])[1..] == s[1..] + [';'];
      DigitsStop(s[1..], acc * 10 + (s[0] - '0') as nat);
    }
  }

  lemma AtoiStops(x: int)
    ensures Atoi(PrintedInt(x) + [';']) == x
  {
    AtoiPrinted(x);
    var s := PrintedInt(x);
    if x < 0 {
      assert (s + [';'])[1..] == s[1..] + [';'] && s[1..] == Printed(-x, 10);
      DigitsStop(s[1..], 0);
    } else {
      DigitsStop(s, 0);
    }
  }

  function Pow10(k: nat): (r: nat) {
    if k == 0 then 1 else 10 * Pow10(k - 1)
  }

  lemma {:induction false} PrintedLength(n: nat, k: nat)
    requires k > 0 && n < Pow10(k)
    ensures |Printed(n, 10)| <= k
    decreases k
  {
    if n >= 10 {
      PrintedLength(n / 10, k - 1);
    }
  }

  lemma IntFacts(x: int)
    requires Int32(x)
    ensures Clean(PrintedInt(x)) && '\n' !in PrintedInt(x) && 0 < |PrintedInt(x)| <= 11
    ensures forall i :: 0 <= i < |PrintedInt(x)| ==> PrintedInt(x)[i] == '-' || IsDigit(PrintedInt(x)[i])
  {
    var n: nat := if x < 0 then -x else x;
    assert Pow10(10) == 10_000_000_000 by {
      assert Pow10(3) == 1000;
      assert Pow10(6) == 1000 * Pow10(3);
      assert Pow10(9) == 1000 * Pow10(6);
    }
    PrintedLength(n, 10);
  }

  /** Without the space the semicolon stays in the value, and atoi stops at it. */
  lemma TightRestored(x: int)
    requires Int32(x)
    ensures Atoi(ValueOf([' '] + (PrintedInt(x) + [';']))) == x
  {
    hide PrintedInt, Atoi, Clean;
    IntFacts(x);
    AtoiStops(x);
    TightValue(PrintedInt(x));
  }

  lemma TightValue(s: string)
    requires s != [] && forall i :: 0 <= i < |s| ==> s[i] == '-' || IsDigit(s[i])
    ensures ValueOf([' '] + (s + [';'])) == s + [';']
  {
    hide LSkip, Stop;
    var v := s + [';'];
    assert v[0] == s[0];
    LSkipSpace(v);
    LSkipNone(v);
    StopBefore(v, [], '\0', false);
    StopEmpty();
    assert v + [] == v && v[..|v|] == v;
  }

  lemma StopEmpty()
    ensures forall c, afterSpace :: Stop([], c, afterSpace) == 0
  {
  }

  // ----- names -----

  predicate Letter(c: char) {
    'A' <= c <= 'Z' || 'a' <= c <= 'z'
  }

  /** A name of letters, and the same name for strcasecmp. */
  predicate Twins(a: string, b: string) {
    a != [] && |a| == |b| && forall k :: 0 <= k < |a| ==> Letter(a[k]) && LowerChar(a[k]) == LowerChar(b[k])
  }

  lemma TwinsMatch(a: string, b: string)
    requires Twins(a, b)
    ensures SameName(a, b) && Name(a)
  {
  }

  lemma LongName()
    ensures Twins("SignatureCheckEnabled", "signaturecheckenabled")
  {
  }

  lemma BackupNames()
    ensures Twins("BackupPrompt", "backupprompt") && Twins("BackupFormat", "backupformat")
  {
  }

  lemma PromptNames()
    ensures Twins("ORSReboot", "orsreboot") && Twins("ORSWipePrompt", "orswipeprompt")
  {
  }

  lemma ThemeNames()
    ensures Twins("Theme", "theme") && Twins("SDTheme", "sdtheme") && Twins("Language", "language")
  {
  }

  lemma TouchNames()
    ensures Twins("maxX", "maxX") && Twins("maxY", "maxY") && Twins("touchY", "touchY")
  {
  }

  /** Every printed name is the handler's name for the same field, in other letters. */
  lemma NamesMatch(i: nat)
    requires i < FIELDS
    ensures SameName(Key(i), Known(i)) && Name(Key(i)) && |Key(i)| <= 21
  {
    hide SameName, Name, Twins;
    LongName();
    BackupNames();
    PromptNames();
    ThemeNames();
    TouchNames();
    TwinsMatch(Key(i), Known(i));
  }

  /** And of no field in front of it. */
  lemma NamesDiffer(i: nat, k: nat)
    requires k < i < FIELDS
    ensures !SameName(Key(i), Known(k))
  {
    if i == 6 && k == 4 {
      assert LowerChar("BackupFormat"[6]) != LowerChar("backupprompt"[6]);
    } else if i == 8 && k == 7 {
      assert LowerChar("maxY"[3]) != LowerChar("maxX"[3]);
    } else {
      assert |Key(i)| != |Known(k)|;
    }
  }

  lemma {:induction false} LookupFinds(i: nat, k: nat)
    requires k <= i < FIELDS
    ensures Lookup(Key(i), k) == i
    decreases i - k
  {
    hide SameName, Key, Known;
    if k == i {
      NamesMatch(i);
    } else {
      NamesDiffer(i, k);
      LookupFinds(i, k + 1);
    }
  }

  lemma SettingsSection()
    ensures SameName("Settings", "settings")
  {
  }

  lemma {:induction false} LookupNone(name: string, i: nat)
    requires i <= FIELDS
    ensures Lookup(name, i) == FIELDS <==> forall k: nat :: i <= k < FIELDS ==> !SameName(name, Known(k))
    decreases FIELDS - i
  {
    hide SameName, Known;
    if i < FIELDS {
      LookupNone(name, i + 1);
    }
  }

  /** A line with an unknown name, or in another section, changes no field and is an error. */
  lemma UnknownLine(st: Reader<Settings>, key: string, body: string, lineno: nat)
    requires Name(key) && body != [] && !Space(body[|body|-1]) && lineno > 1
    requires !SameName(st.section, "settings") || forall k: nat :: k < FIELDS ==> !SameName(key, Known(k))
    ensures AnyLine(Fill, st, Entry(key, body) + ['\n'], lineno)
      == st.(prev := Clip(key), error := if st.error == 0 then lineno else st.error)
  {
    hide AnyLine, ValueOf, Name, SameName, Put, Known, Lookup;
    KeyLine(Fill, st, key, body, lineno);
    LookupNone(key, 0);
  }

  // ----- the round trip -----

  /** The record with its first `n` fields from `c` and the others from `any`. */
  function Mix(c: Settings, any: Settings, n: nat): (r: Settings) {
    Settings(if n > 0 then c.theme else any.theme, if n > 1 then c.sdTheme else any.sdTheme,
             if n > 2 then c.orsReboot else any.orsReboot, if n > 3 then c.orsWipePrompt else any.orsWipePrompt,
             if n > 4 then c.backupPrompt else any.backupPrompt, if n > 5 then c.signatureCheck else any.signatureCheck,
             if n > 6 then c.backupFormat else any.backupFormat, if n > 7 then c.maxX else any.maxX,
             if n > 8 then c.maxY else any.maxY, if n > 9 then c.touchY else any.touchY,
             if n > 10 then c.language else any.language)
  }

  /** A value that reads as the field restores the field. */
  lemma PutRestores(c: Settings, any: Settings, i: nat, value: string)
    requires i < FIELDS && if IsText(i) then value == Text(c, i) else Atoi(value) == Number(c, i)
    ensures Put(Mix(c, any, i), i, value) == Mix(c, any, i + 1)
  {
    hide Atoi;
  }

  /** What is read back from a printed line reads as the field. */
  lemma BodyRestored(c: Settings, i: nat)
    requires Printable(c) && i < FIELDS
    ensures var v := ValueOf([' '] + Body(c, i));
      if IsText(i) then v == Text(Restored(c), i) else Atoi(v) == Number(Restored(c), i)
  {
    hide Atoi, PrintedInt, ValueOf, Clean, Number, Restored;
    RestoredFields(c, i);
    if i == 1 {
      TightRestored(Number(c, i));
    } else if !IsText(i) {
      var v := PrintedInt(Number(c, i));
      IntFacts(Number(c, i));
      AtoiPrinted(Number(c, i));
      CleanRestored(v);
      assert [' '] + v + [' ', ';'] == [' '] + Body(c, i);
    }
  }

  /** A printed line sets its field. */
  lemma ReadField(c: Settings, any: Settings, i: nat, prev: string, lineno: nat)
    requires Printable(c) && i < FIELDS
    ensures var r := Restored(c);
      AnyLine(Fill, Reader("Settings", prev, 0, Mix(r, any, i)), Entry(Key(i), Body(c, i)) + ['\n'], lineno)
      == Reader("Settings", Key(i), 0, Mix(r, any, i + 1))
  {
    hide AnyLine, ValueOf, Name, SameName, Put, Mix, Key, Lookup, Text, Number, Printable, PrintedInt, Restored;
    var r := Restored(c);
    var st := Reader("Settings", prev, 0, Mix(r, any, i));
    var body := Body(c, i);
    NamesMatch(i);
    LookupFinds(i, 0);
    SettingsSection();
    KeyLine(Fill, st, Key(i), body, lineno);
    BodyRestored(c, i);
    PutRestores(r, any, i, ValueOf([' '] + body));
  }

  lemma {:induction false} ReadEntries(c: Settings, any: Settings, i: nat, prev: string, lineno: nat)
    requires Printable(c) && i <= FIELDS && (i == FIELDS ==> prev == Key(10))
    ensures Fold(Fill, Reader("Settings", prev, 0, Mix(Restored(c), any, i)), Entries(c, i), lineno)
      == Reader("Settings", Key(10), 0, Restored(c))
    decreases FIELDS - i
  {
    hide AnyLine, Mix, Key, Body, Entry, Printable, Restored;
    var es, r := Entries(c, i), Restored(c);
    var st := Reader("Settings", prev, 0, Mix(r, any, i));
    if i == FIELDS {
      assert es[1..] == [] && es[0] + ['\n'] == ['\n'];
      BlankLine(Fill, st, lineno);
      MixAll(r, any);
      assert Fold(Fill, st, [], lineno + 1) == st;
    } else {
      assert es[0] == Entry(Key(i), Body(c, i)) && es[1..] == Entries(c, i + 1);
      ReadField(c, any, i, prev, lineno);
      ReadEntries(c, any, i + 1, Key(i), lineno + 1);
    }
  }

  lemma MixAll(c: Settings, any: Settings)
    ensures Mix(c, any, FIELDS) == c && Mix(c, any, 0) == any
  {
  }

  lemma HeaderLines()
    ensures ";" + ['\n'] == [';'] + [] + ['\n'] && "; COT Settings INI" + ['\n'] == [';'] + " COT Settings INI" + ['\n']
    ensures "" + ['\n'] == ['\n'] && "[Settings]" + ['\n'] == ['['] + "Settings" + [']'] + ['\n']
    ensures Name("Settings") && ']' !in "Settings"
  {
    assert "; COT Settings INI" == [';'] + " COT Settings INI";
    assert "[Settings]" == ['['] + "Settings" + [']'];
  }

  lemma FoldAt(st: Reader<Settings>, lines: seq<string>, k: nat)
    requires k < |lines|
    ensures Fold(Fill, st, lines[k..], k + 1) == Fold(Fill, AnyLine(Fill, st, lines[k] + ['\n'], k + 1),
        lines[k+1..], k + 2)
  {
    hide AnyLine;
    assert lines[k..][0] == lines[k] && lines[k..][1..] == lines[k+1..];
  }

  /** Everything before the first entry. */
  lemma ReadHead(rest: seq<string>, any: Settings)
    ensures Fold(Fill, Reader([], [], 0, any), HEAD + rest, 1) == Fold(Fill, Reader("Settings", [], 0, any), rest, 6)
  {
    hide Fold, AnyLine, Name;
    var st, lines := Reader([], [], 0, any), HEAD + rest;
    HeaderLines();
    assert lines[0..] == lines && lines[5..] == rest;
    FoldAt(st, lines, 0);
    CommentLine(Fill, st, [], 1);
    FoldAt(st, lines, 1);
    CommentLine(Fill, st, " COT Settings INI", 2);
    FoldAt(st, lines, 2);
    CommentLine(Fill, st, [], 3);
    FoldAt(st, lines, 3);
    BlankLine(Fill, st, 4);
    FoldAt(st, lines, 4);
    SectionLine(Fill, st, "Settings", 5);
  }

  predicate Fits(line: string) {
    '\n' !in line && |line| < MAX_LINE - 1
  }

  lemma EntryFits(c: Settings, i: nat)
    requires Printable(c) && i < FIELDS
    ensures Fits(Entry(Key(i), Body(c, i)))
  {
    hide Clean, Key, PrintedInt, Number, Text;
    NamesMatch(i);
    if !IsText(i) {
      IntFacts(Number(c, i));
    }
  }

  lemma {:induction false} EntriesFit(c: Settings, i: nat)
    requires Printable(c) && i <= FIELDS
    ensures forall k :: 0 <= k < |Entries(c, i)| ==> Fits(Entries(c, i)[k])
    decreases FIELDS - i
  {
    hide Printable, Body, Entry, Key;
    if i < FIELDS {
      EntryFits(c, i);
      EntriesFit(c, i + 1);
    }
  }

  /** Reading the printed file over any record reports no error and sets every field. */
  lemma ReadBack(c: Settings, any: Settings)
    requires Printable(c)
    ensures ParseText(Fill, Reader([], [], 0, any), Print(c), 1) == Reader("Settings", "Language", 0, Restored(c))
  {
    hide Printable, ParseText, Fill, Fold, Ini.Text, Entries, Mix, Restored;
    var lines := HEAD + Entries(c, 0);
    EntriesFit(c, 0);
    forall i | 0 <= i < |lines| ensures '\n' !in lines[i] && |lines[i]| < MAX_LINE - 1 {
      if i >= 5 {
        assert lines[i] == Entries(c, 0)[i-5] && Fits(lines[i]);
      }
    }
    ParseLines(Fill, Reader([], [], 0, any), lines, 1);
    ReadHead(Entries(c, 0), any);
    MixAll(Restored(c), any);
    ReadEntries(c, any, 0, [], 6);
  }

  /** The strings survive exactly if they have no white space at an end, no comment in them, and are not empty. */
  lemma RestoredSame(c: Settings)
    requires Printable(c)
    ensures Restored(c) == c <==> Clean(c.theme) && Clean(c.language)
  {
    hide ValueOf, Clean, Key;
    assert IsText(0) && IsText(10);
    assert [' '] + Body(c, 0) == [' '] + c.theme + [' ', ';'];
    assert [' '] + Body(c, 10) == [' '] + c.language + [' ', ';'];
    RestoredExactly(c.theme);
    RestoredExactly(c.language);
  }

  /** The round trip: no error, and every field is restored if and only if both strings are clean. */
  lemma RoundTrip(c: Settings, any: Settings)
    requires Printable(c)
    ensures var r := ParseText(Fill, Reader([], [], 0, any), Print(c), 1);
      r.error == 0 && (r.config == c <==> Clean(c.theme) && Clean(c.language))
  {
    hide Printable, ParseText, Restored, Clean, Print;
    ReadBack(c, any);
    RestoredSame(c);
  }
}
