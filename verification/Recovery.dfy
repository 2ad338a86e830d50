/**
 The restart protocol of recovery.c: the bootloader control block (BCB) as a write-ahead record of the
 arguments, and a factory reset that may lose power at any step.
 */
module Recovery {
  import opened BsPatch

  const FIELD := 1024
  const MAX_ARGS := 100

  // ----- the arguments in the BCB -----

  /** What strlcat keeps in the recovery field. */
  function Clip(s: string): (r: string) {
    if |s| < FIELD then s else s[..FIELD-1]
  }

  function Joined(words: seq<string>): (r: string) {
    if words == [] then [] else words[0] + ['\n'] + Joined(words[1..])
  }

  /** The text that get_args means to store. */
  function Full(args: seq<string>): (r: string) {
    "recovery" + ['\n'] + Joined(args)
  }

  lemma ClipAppend(s: string, t: string)
    ensures Clip(Clip(s) + t) == Clip(s + t)
  {
    if |s| >= FIELD {
      assert (s[..FIELD-1] + t)[..FIELD-1] == s[..FIELD-1];
      assert (s + t)[..FIELD-1] == s[..FIELD-1];
    }
  }

  lemma {:induction false} JoinedSnoc(words: seq<string>, w: string)
    ensures Joined(words + [w]) == Joined(words) + w + ['\n']
  {
    if words == [] {
      assert words + [w] == [w] && [w][1..] == [];
      assert Joined([w]) == w + ['\n'] + Joined([]);
    } else {
      JoinedSnoc(words[1..], w);
      assert (words + [w])[1..] == words[1..] + [w];
    }
  }

  /** Lines 247-252: the arguments, one per line, as far as they fit. */
  method StoreArgs(args: seq<string>) returns (field: string)
    ensures field == Clip(Full(args))
  {
    hide Joined, Clip;
    field := Clip("recovery" + ['\n']);
    var i := 0;
    assert args[..0] == [];
    JoinedNone();
    while i < |args|
      invariant 0 <= i <= |args| && field == Clip(Full(args[..i]))
    {
      ghost var s := Full(args[..i]);
      ClipAppend(s, args[i]);
      ClipAppend(s + args[i], ['\n']);
      JoinedSnoc(args[..i], args[i]);
      assert args[..i+1] == args[..i] + [args[i]];
      assert s + args[i] + ['\n'] == Full(args[..i+1]);
      field := Clip(field + args[i]);
      field := Clip(field + ['\n']);
      i := i + 1;
    }
    assert args[..i] == args;
  }

  lemma JoinedNone()
    ensures Joined([]) == [] && Clip(Full([])) == Clip("recovery" + ['\n'])
  {
    assert "recovery" + ['\n'] + [] == "recovery" + ['\n'];
  }

  /** strtok with "\n": the non-empty pieces; `word` is the piece being collected. */
  function Tokens(s: string, word: string): (r: seq<string>)
    decreases |s|
  {
    var done := if word == [] then [] else [word];
    if s == [] then done
    else if s[0] == '\n' then done + Tokens(s[1..], [])
    else Tokens(s[1..], word + [s[0]])
  }

  function Limit(words: seq<string>): (r: seq<string>) {
    if |words| < MAX_ARGS then words else words[..MAX_ARGS-1]
  }

  /** Lines 205-212: the arguments in the field, if it is a recovery message. */
  function Reread(field: string): (r: Option<seq<string>>) {
    var words := Tokens(field, []);
    if words != [] && words[0] == "recovery" then Some(Limit(words[1..])) else None
  }

  predicate Word(w: string) {
    w != [] && '\n' !in w
  }

  predicate Words(words: seq<string>) {
    forall i :: 0 <= i < |words| ==> Word(words[i])
  }

  /** What fits: the newline after the last argument may be lost. */
  predicate Storable(args: seq<string>) {
    Words(args) && |args| < MAX_ARGS && |Full(args)| <= FIELD
  }

  // ----- tokens -----

  lemma {:induction false} TokensWord(w: string, rest: string, word: string)
    requires '\n' !in w
    ensures Tokens(w + rest, word) == Tokens(rest, word + w)
    decreases |w|
  {
    if w == [] {
      assert w + rest == rest && word + w == word;
    } else {
      assert (w + rest)[1..] == w[1..] + rest;
      TokensWord(w[1..], rest, word + [w[0]]);
      assert word + [w[0]] + w[1..] == word + w;
    }
  }

  lemma TokensLine(w: string, rest: string)
    requires Word(w)
    ensures Tokens(w + ['\n'] + rest, []) == [w] + Tokens(rest, [])
  {
    assert w + ['\n'] + rest == w + (['\n'] + rest);
    TokensWord(w, ['\n'] + rest, []);
    assert (['\n'] + rest)[1..] == rest;
    assert [] + w == w;
  }

  lemma {:induction false} TokensJoined(words: seq<string>)
    requires Words(words)
    ensures Tokens(Joined(words), []) == words
  {
    if words != [] {
      TokensLine(words[0], Joined(words[1..]));
      TokensJoined(words[1..]);
    }
  }

  /** The same without the last newline. */
  lemma {:induction false} TokensOpen(words: seq<string>)
    requires Words(words) && words != []
    ensures Joined(words) != [] && Tokens(Joined(words)[..|Joined(words)|-1], []) == words
    decreases |words|
  {
    var w, rest := words[0], words[1..];
    if rest == [] {
      assert Joined(rest) == [] && Joined(words)[..|w|] == w + [];
      TokensWord(w, [], []);
      assert [] + w == w;
    } else {
      TokensOpen(rest);
      var j := Joined(rest);
      assert Joined(words)[..|Joined(words)|-1] == w + ['\n'] + j[..|j|-1];
      TokensLine(w, j[..|j|-1]);
    }
  }

  /** Tokens are words, and their text with newlines is at most one longer than what they came from. */
  lemma {:induction false} TokensFacts(s: string, word: string)
    requires '\n' !in word
    ensures Words(Tokens(s, word)) && |Joined(Tokens(s, word))| <= |word| + |s| + 1
    decreases |s|
  {
    assert word != [] ==> Joined([word]) == word + ['\n'] + Joined([]);
    if s != [] {
      if s[0] == '\n' {
        TokensFacts(s[1..], []);
        var rest := Tokens(s[1..], []);
        assert word != [] ==> ([word] + rest)[1..] == rest;
        assert word == [] ==> [] + rest == rest;
      } else {
        TokensFacts(s[1..], word + [s[0]]);
      }
    }
  }

  lemma {:induction false} JoinedPrefix(words: seq<string>, k: nat)
    requires k <= |words|
    ensures |Joined(words[..k])| <= |Joined(words)|
    decreases k
  {
    if k > 0 {
      JoinedPrefix(words[1..], k - 1);
      assert words[..k][1..] == words[1..][..k-1];
    }
  }

  lemma FullJoined(args: seq<string>)
    ensures Full(args) == Joined(["recovery"] + args)
  {
    assert (["recovery"] + args)[1..] == args;
  }

  lemma StorableReread(args: seq<string>)
    requires Storable(args)
    ensures Reread(Clip(Full(args))) == Some(args)
  {
    hide Joined, Tokens;
    var words := ["recovery"] + args;
    FullJoined(args);
    assert Words(words);
    TokensJoined(words);
    TokensOpen(words);
    assert words[1..] == args;
  }

  lemma RereadStorable(field: string, args: seq<string>)
    requires |field| < FIELD && Reread(field) == Some(args)
    ensures Storable(args)
  {
    hide Joined, Tokens;
    var words := Tokens(field, []);
    TokensFacts(field, []);
    JoinedPrefix(words, |args| + 1);
    assert words[..|args|+1] == ["recovery"] + args;
    FullJoined(args);
  }

  /** The argument lists that the next boot reads back unchanged from the BCB are exactly the storable ones. */
  lemma RereadExactly(args: seq<string>)
    ensures Reread(Clip(Full(args))) == Some(args) <==> Storable(args)
  {
    hide Storable, Reread, Full;
    if Storable(args) {
      StorableReread(args);
    } else if Reread(Clip(Full(args))) == Some(args) {
      RereadStorable(Clip(Full(args)), args);
    }
  }

  // ----- factory reset -----

  datatype Data = Whole | Partial | Erased

  /** `boots` tells whether the command field makes the bootloader start recovery. */
  datatype Bcb = Bcb(boots: bool, field: string)

  datatype Phase =
    | Off
    | MainSystem
    | Armed(args: seq<string>)   // get_args has written the BCB
    | Wiping(args: seq<string>)  // inside erase_volume("/data")
    | Wiped(args: seq<string>)   // /datadata and /cache are next
    | Ending                     // finish_recovery has cleared the BCB

  /** `command` is the list of lines in /cache/recovery/command. */
  datatype State = State(bcb: Bcb, command: seq<string>, data: Data, phase: Phase)

  /** get_args without command line arguments: the BCB first, then the command file. */
  function GetArgs(field: string, command: seq<string>): (r: seq<string>) {
    match Reread(field)
    case Some(args) => if args != [] then args else Limit(command)
    case None => Limit(command)
  }

  /**
   One step, of a system whose main part only ever asks for `request`; `wipes` is what getopt makes of an
   argument list.  Power may be lost anywhere, and the user may start recovery by hand at any boot.
   */
  ghost predicate Step(wipes: seq<string> -> bool, request: seq<string>, s: State, t: State) {
    || t == s.(phase := Off)
    || (s.phase.Off? && !s.bcb.boots && t == s.(phase := MainSystem))
    || (s.phase.MainSystem? && (t == s.(data := Whole) || t == s.(command := request) || t == s.(command := [])))
    || (s.phase.Off? && var args := GetArgs(s.bcb.field, s.command);
        t == s.(bcb := Bcb(true, Clip(Full(args))), phase := Armed(args)))
    || (s.phase.Armed? && wipes(s.phase.args) && t == s.(data := Partial, phase := Wiping(s.phase.args)))
    || (s.phase.Wiping? && t == s.(data := Erased, phase := Wiped(s.phase.args)))
    || (s.phase.Wiped? && t == s.(command := []))
    || ((s.phase.Wiped? || (s.phase.Armed? && !wipes(s.phase.args))) && t == s.(bcb := Bcb(false, []), phase := Ending))
    || (s.phase.Ending? && t == s.(command := []))
  }

  ghost predicate Run(wipes: seq<string> -> bool, request: seq<string>, h: seq<State>) {
    && h != [] && h[0] == State(Bcb(false, []), [], Whole, MainSystem)
    && forall i, j :: 0 <= i < |h| && j == i + 1 && j < |h| ==> Step(wipes, request, h[i], h[j])
  }

  /** The state the protocol must never reach: half of /data gone, and the next boot starts the main system. */
  predicate Broken(s: State) {
    s.data.Partial? && !s.bcb.boots
  }

  /** The wipe request survives being stored in the BCB. */
  predicate Survives(wipes: seq<string> -> bool, request: seq<string>) {
    wipes(Limit(request)) ==> wipes(GetArgs(Clip(Full(Limit(request))), []))
  }

  ghost predicate Inv(wipes: seq<string> -> bool, request: seq<string>, s: State) {
    && |s.bcb.field| < FIELD
    && (s.command == [] || s.command == request)
    && (s.data.Partial? ==> s.bcb.boots && wipes(GetArgs(s.bcb.field, [])))
    && (s.data.Partial? ==> s.phase.Off? || s.phase.Armed? || s.phase.Wiping?)
    && (s.phase.Armed? || s.phase.Wiping? ==> s.bcb == Bcb(true, Clip(Full(s.phase.args))))
    && (s.phase.Armed? && wipes(s.phase.args) ==> wipes(GetArgs(s.bcb.field, [])))
    && (s.phase.Armed? && s.data.Partial? ==> wipes(s.phase.args))
  }

  /** Arguments in the BCB come first; without any there, whatever else it holds, the command file counts. */
  lemma ArgsInOrder(args: seq<string>, command: seq<string>, field: string)
    ensures Storable(args) && args != [] ==> GetArgs(Clip(Full(args)), command) == args
    ensures GetArgs(Clip(Full([])), command) == Limit(command)
    ensures Tokens(field, []) == [] || Tokens(field, [])[0] != "recovery" ==> GetArgs(field, command) == Limit(command)
  {
    hide Full, Tokens;
    if Storable(args) {
      StorableReread(args);
    }
    EmptyStorable();
    StorableReread([]);
  }

  lemma EmptyStorable()
    ensures Storable([])
  {
    assert Joined([]) == [];
  }

  /** Arguments that came from a BCB are read from it again. */
  lemma RereadAgain(field: string, command: seq<string>)
    requires |field| < FIELD && Reread(field).Some? && Reread(field).value != []
    ensures var args := GetArgs(field, command); GetArgs(Clip(Full(args)), []) == args && GetArgs(field, []) == args
  {
    hide Reread, Storable, Full, Clip;
    RereadStorable(field, Reread(field).value);
    StorableReread(Reread(field).value);
  }

  lemma BootKeeps(wipes: seq<string> -> bool, request: seq<string>, s: State)
    requires Inv(wipes, request, s) && Survives(wipes, request) && !wipes([]) && s.phase.Off?
    ensures var args := GetArgs(s.bcb.field, s.command);
      Inv(wipes, request, s.(bcb := Bcb(true, Clip(Full(args))), phase := Armed(args)))
  {
    hide Reread, Full;
    if Reread(s.bcb.field).Some? && Reread(s.bcb.field).value != [] {
      RereadAgain(s.bcb.field, s.command);
    }
  }

  lemma StepKeeps(wipes: seq<string> -> bool, request: seq<string>, s: State, t: State)
    requires Inv(wipes, request, s) && Step(wipes, request, s, t) && Survives(wipes, request) && !wipes([])
    ensures Inv(wipes, request, t)
  {
    hide Reread, Full, Clip, GetArgs, Survives;
    if s.phase.Off? {
      BootKeeps(wipes, request, s);
    }
  }

  lemma {:induction false} RunInv(wipes: seq<string> -> bool, request: seq<string>, h: seq<State>, i: nat)
    requires Run(wipes, request, h) && i < |h| && Survives(wipes, request) && !wipes([])
    ensures Inv(wipes, request, h[i])
  {
    hide Step, Survives, GetArgs, Full;
    if i > 0 {
      RunInv(wipes, request, h, i - 1);
      StepKeeps(wipes, request, h[i-1], h[i]);
    }
  }

  /**
   With power loss at any step of any run, a partly erased /data never meets a BCB that boots the main
   system, and the next boot erases again with the arguments it finds.
   */
  lemma ResetRestarts(wipes: seq<string> -> bool, request: seq<string>, h: seq<State>, i: nat)
    requires Run(wipes, request, h) && i < |h| && Survives(wipes, request) && !wipes([])
    ensures !Broken(h[i])
    ensures h[i].phase.MainSystem? ==> !h[i].data.Partial?
    ensures h[i].data.Partial? ==> wipes(GetArgs(h[i].bcb.field, []))
  {
    hide Run, Survives, GetArgs, Full;
    RunInv(wipes, request, h, i);
  }

  // ----- an accepted wipe erases -----

  /** A wipe has been accepted and not been completed: the BCB starts recovery, with arguments that wipe. */
  ghost predicate Pending(wipes: seq<string> -> bool, s: State) {
    && s.bcb.boots && |s.bcb.field| < FIELD && wipes(GetArgs(s.bcb.field, []))
    && (s.phase.Off? || (s.phase.Armed? && wipes(s.phase.args)) || s.phase.Wiping?)
  }

  lemma PendingReboots(wipes: seq<string> -> bool, s: State)
    requires Pending(wipes, s) && !wipes([])
    ensures var args := GetArgs(s.bcb.field, s.command);
      wipes(args) && Pending(wipes, s.(bcb := Bcb(true, Clip(Full(args))), phase := Armed(args)))
  {
    hide Reread, Full;
    RereadAgain(s.bcb.field, s.command);
  }

  /** It stays so until /data has been erased. */
  lemma PendingKeeps(wipes: seq<string> -> bool, request: seq<string>, s: State, t: State)
    requires Pending(wipes, s) && Step(wipes, request, s, t) && !wipes([])
    ensures Pending(wipes, t) || t.data.Erased?
  {
    hide Reread, Full, Clip, GetArgs;
    if s.phase.Off? {
      PendingReboots(wipes, s);
    }
  }

  lemma {:induction false} PendingUntilErased(wipes: seq<string> -> bool, request: seq<string>, h: seq<State>, i: nat,
                                              j: nat)
    requires Run(wipes, request, h) && i <= j < |h| && Survives(wipes, request) && !wipes([])
    requires h[i].phase.Armed? && wipes(h[i].phase.args)
    ensures Pending(wipes, h[j]) || exists k :: i < k <= j && h[k].data.Erased?
    decreases j
  {
    hide Step, Survives, GetArgs, Full;
    if i == j {
      RunInv(wipes, request, h, i);
    } else {
      PendingUntilErased(wipes, request, h, i, j - 1);
      if Pending(wipes, h[j-1]) {
        PendingKeeps(wipes, request, h[j-1], h[j]);
      }
    }
  }

  /**
   Once recovery has accepted a wipe, whatever happens then, power losses included, the BCB is cleared only
   behind a completed erase.
   */
  lemma ClearedBehindErase(wipes: seq<string> -> bool, request: seq<string>, h: seq<State>, i: nat, j: nat)
    requires Run(wipes, request, h) && i < j < |h| && Survives(wipes, request) && !wipes([])
    requires h[i].phase.Armed? && wipes(h[i].phase.args) && !h[j].bcb.boots
    ensures exists k :: i < k <= j && h[k].data.Erased?
  {
    hide Run, Survives, GetArgs;
    PendingUntilErased(wipes, request, h, i, j);
  }

  /** Nothing is erased unless recovery has accepted a wipe. */
  lemma {:induction false} ErasedOnlyIfAsked(wipes: seq<string> -> bool, request: seq<string>, h: seq<State>, i: nat)
    requires Run(wipes, request, h) && i < |h|
    requires forall k :: 0 <= k < i && h[k].phase.Armed? ==> !wipes(h[k].phase.args)
    ensures h[i].data.Whole? && !h[i].phase.Wiping? && !h[i].phase.Wiped?
  {
    hide Reread, Full, Clip, GetArgs;
    if i > 0 {
      ErasedOnlyIfAsked(wipes, request, h, i - 1);
      assert Step(wipes, request, h[i-1], h[i]);
    }
  }

  lemma RunMore(wipes: seq<string> -> bool, request: seq<string>, h: seq<State>, t: State)
    requires Run(wipes, request, h) && Step(wipes, request, h[|h|-1], t)
    ensures Run(wipes, request, h + [t])
  {
    hide Step;
    var g := h + [t];
    forall i, j | 0 <= i < |g| && j == i + 1 && j < |g|
      ensures Step(wipes, request, g[i], g[j])
    {
      if j < |h| {
        assert g[i] == h[i] && g[j] == h[j];
      }
    }
  }

  /** A pending wipe can be completed by the next boot: /data erased, the BCB and the command file cleared. */
  lemma PendingCompletes(wipes: seq<string> -> bool, request: seq<string>, h: seq<State>) returns (g: seq<State>)
    requires Run(wipes, request, h) && Pending(wipes, h[|h|-1]) && !wipes([])
    ensures Run(wipes, request, h + g) && g != []
    ensures g[|g|-1].data.Erased? && g[|g|-1].bcb == Bcb(false, []) && g[|g|-1].command == []
  {
    hide Run, Reread, Full, Clip, GetArgs;
    RunNonEmpty(wipes, request, h);
    var off := h[|h|-1].(phase := Off);
    PendingReboots(wipes, off);
    var args := GetArgs(off.bcb.field, off.command);
    var armed := off.(bcb := Bcb(true, Clip(Full(args))), phase := Armed(args));
    var wiping := armed.(data := Partial, phase := Wiping(args));
    var wiped := wiping.(data := Erased, phase := Wiped(args));
    var ending := wiped.(bcb := Bcb(false, []), phase := Ending);
    var last := ending.(command := []);
    RunMore(wipes, request, h, off);
    RunMore(wipes, request, h + [off], armed);
    RunMore(wipes, request, h + [off] + [armed], wiping);
    RunMore(wipes, request, h + [off] + [armed] + [wiping], wiped);
    RunMore(wipes, request, h + [off] + [armed] + [wiping] + [wiped], ending);
    RunMore(wipes, request, h + [off] + [armed] + [wiping] + [wiped] + [ending], last);
    g := [off, armed, wiping, wiped, ending, last];
    assert h + g == h + [off] + [armed] + [wiping] + [wiped] + [ending] + [last];
  }

  /** A surviving request to wipe is accepted at the next boot, and can be completed from wherever it is. */
  lemma RequestAccepted(wipes: seq<string> -> bool, request: seq<string>) returns (h: seq<State>)
    requires Survives(wipes, request) && wipes(Limit(request)) && !wipes([])
    ensures Run(wipes, request, h) && Pending(wipes, h[|h|-1]) && h[|h|-1].phase == Armed(Limit(request))
  {
    hide Reread, Full;
    var s0 := State(Bcb(false, []), [], Whole, MainSystem);
    var s1 := s0.(command := request);
    var s2 := s1.(phase := Off);
    NoArgs();
    var s3 := s2.(bcb := Bcb(true, Clip(Full(Limit(request)))), phase := Armed(Limit(request)));
    h := [s0, s1, s2, s3];
  }

  /** A request that the BCB cannot hold is a way to lose the erase. */
  lemma LostRequest(wipes: seq<string> -> bool, request: seq<string>) returns (h: seq<State>)
    requires !Survives(wipes, request) && Words(request) && request != []
    ensures Run(wipes, request, h) && Broken(h[|h|-1])
  {
    hide Reread, Full, Clip;
    var args := Limit(request);
    var s0 := State(Bcb(false, []), [], Whole, MainSystem);
    var s1 := s0.(command := request);
    var s2 := s1.(phase := Off);
    NoArgs();
    var field := Clip(Full(args));
    var s3 := s2.(bcb := Bcb(true, field), phase := Armed(args));
    var s4 := s3.(data := Partial, phase := Wiping(args));
    var s5 := s4.(phase := Off);
    var again := GetArgs(field, request);
    FirstArgStays(args);
    var s6 := s5.(bcb := Bcb(true, Clip(Full(again))), phase := Armed(again));
    var s7 := s6.(bcb := Bcb(false, []), phase := Ending);
    h := [s0, s1, s2, s3, s4, s5, s6, s7];
  }

  const WIPE := "--wipe_data"

  /** A first argument that fills the field pushes "--wipe_data" out of it. */
  lemma LongRequestLost(filler: string)
    requires Word(filler) && |filler| >= FIELD - 10
    ensures !Survives(a => WIPE in a, [filler, WIPE]) && Words([filler, WIPE])
  {
    hide Tokens, Joined;
    var request, kept := [filler, WIPE], filler[..FIELD-10];
    var rest := "\n" + Joined([WIPE]);
    JoinedFirst(filler, [WIPE]);
    assert request == [filler] + [WIPE];
    assert Full(request) == "recovery" + ['\n'] + (filler + rest);
    assert (filler + rest)[..FIELD-10] == kept;
    assert Clip(Full(request)) == "recovery" + ['\n'] + kept;
    TokensLine("recovery", kept);
    TokensAll(kept);
    var words := Tokens(Clip(Full(request)), []);
    assert words == ["recovery", kept] && words[1..] == [kept];
    assert |kept| != |WIPE|;
    assert request[1] == WIPE;
  }

  lemma JoinedFirst(w: string, rest: seq<string>)
    ensures Joined([w] + rest) == w + ("\n" + Joined(rest))
  {
    assert ([w] + rest)[1..] == rest;
  }

  lemma TokensAll(w: string)
    requires Word(w)
    ensures Tokens(w, []) == [w]
  {
    assert w + [] == w && [] + w == w;
    TokensWord(w, [], []);
  }

  lemma {:induction false} TokensSome(s: string, word: string)
    requires word != []
    ensures Tokens(s, word) != []
    decreases |s|
  {
    if s != [] && s[0] != '\n' {
      TokensSome(s[1..], word + [s[0]]);
    }
  }

  /** However much is cut off, a piece of the first argument is still there. */
  lemma FirstArgStays(args: seq<string>)
    requires args != [] && Words(args)
    ensures Reread(Clip(Full(args))).Some? && Reread(Clip(Full(args))).value != []
  {
    hide Tokens;
    var j := Joined(args);
    assert j == args[0] + ['\n'] + Joined(args[1..]);
    var x := if |Full(args)| < FIELD then j else j[..FIELD-10];
    assert Clip(Full(args)) == "recovery" + ['\n'] + x;
    assert x != [] && x[0] == args[0][0] && Word(args[0]);
    TokensLine("recovery", x);
    StartsWord(x);
    var words := Tokens(Clip(Full(args)), []);
    assert words[1..] == Tokens(x, []);
  }

  lemma StartsWord(x: string)
    requires x != [] && x[0] != '\n'
    ensures Tokens(x, []) != []
  {
    TokensSome(x[1..], [] + [x[0]]);
  }

  lemma NoArgs()
    ensures Reread([]) == None
  {
  }

  /** The protocol is safe for a request exactly if storing it in the BCB does not lose the wipe. */
  lemma SafeExactly(wipes: seq<string> -> bool, request: seq<string>)
    requires Words(request) && !wipes([])
    ensures (forall h, i :: Run(wipes, request, h) && 0 <= i < |h| ==> !Broken(h[i])) <==> Survives(wipes, request)
  {
    hide Run, Survives, Broken;
    if Survives(wipes, request) {
      forall h, i | Run(wipes, request, h) && 0 <= i < |h| ensures !Broken(h[i]) {
        ResetRestarts(wipes, request, h, i);
      }
    } else {
      EmptySurvives(wipes);
      var h := LostRequest(wipes, request);
      assert h != [] by { RunNonEmpty(wipes, request, h); }
    }
  }

  lemma EmptySurvives(wipes: seq<string> -> bool)
    requires !wipes([])
    ensures Survives(wipes, [])
  {
  }

  lemma RunNonEmpty(wipes: seq<string> -> bool, request: seq<string>, h: seq<State>)
    requires Run(wipes, request, h)
    ensures h != []
  {
  }

  /** Any storable request survives, whatever getopt makes of it. */
  lemma StorableSurvives(wipes: seq<string> -> bool, request: seq<string>)
    requires Storable(request) && !wipes([])
    ensures Survives(wipes, request)
  {
    hide Reread, Full, Clip;
    StorableReread(request);
  }
}
