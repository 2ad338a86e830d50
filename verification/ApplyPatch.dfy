/**
 The crash safety of applypatch on regular files (applypatch.c, freecache.c).

 A run is a sequence of file-system steps.  The power may fail between any two of them: files that
 were not fsync'ed then hold anything, and applypatch is started again.
 */
module ApplyPatch {
  import opened Bytes
  import opened BsPatch
  import opened Paths

  /** "/cache/saved.file". */
  const CACHE_TEMP_SOURCE: Path := ["cache", "saved.file"]

  datatype File = File(data: seq<byte>, synced: bool)

  type Disk = map<Path, File>

  /**
   The arguments of applypatch, with "-" already replaced by the source name.  `mask` is the retouch
   masking of LoadFileContents (None when it reports an error), `sha` the digest of a file, `patches` the
   digests that a patch is available for, and `applies(data, hashed, written)` tells that patching `data` can
   succeed with `hashed` in the digest and `written` in the file.
   */
  datatype Job = Job(source: string, target: string, targetSha: seq<byte>, patches: set<seq<byte>>,
                     mask: seq<byte> -> Option<seq<byte>>, sha: seq<byte> -> seq<byte>,
                     applies: (seq<byte>, seq<byte>, seq<byte>) -> bool)
  {
    function Source(): Path {
      Resolve(source)
    }

    function Target(): Path {
      Resolve(target)
    }

    /** The file that the output is written to before it replaces the target. */
    function Outname(): Path {
      Resolve(target + ".patch")
    }

    /** Contents that a patch is available for. */
    predicate Patchable(data: seq<byte>) {
      sha(data) in patches
    }

    /** Patchable contents that can come out of LoadFileContents. */
    ghost predicate Loadable(data: seq<byte>) {
      Patchable(data) && exists x: seq<byte> :: mask(x) == Some(data)
    }

    /** Contents that LoadFileContents recognises as the target's. */
    predicate Accepts(data: seq<byte>) {
      mask(data).Some? && sha(mask(data).value) == targetSha
    }

    /** Saved in a file, the contents can be loaded again as something that a patch is available for. */
    predicate Keeps(data: seq<byte>) {
      mask(data).Some? && Patchable(mask(data).value)
    }

    /** Contents that a run can take from the source: not the target's, if source and target are one file. */
    predicate Taken(data: seq<byte>) {
      Patchable(data) && (Source() != Target() || sha(data) != targetSha)
    }

    /** Whatever a run takes from the source, in masked form, keeps as a copy. */
    ghost predicate Storable() {
      forall x: seq<byte> :: mask(x).Some? && Taken(mask(x).value) ==> Keeps(mask(x).value)
    }

    /** When patching succeeds with the target digest, the file that was written is the target. */
    ghost predicate Sound() {
      forall data: seq<byte>, hashed: seq<byte>, written: seq<byte> ::
        Loadable(data) && applies(data, hashed, written) && sha(hashed) == targetSha ==> Accepts(written)
    }

    /** Neither name is that of a partition. */
    predicate Regular() {
      !("MTD:" <= source) && !("EMMC:" <= source) && !("MTD:" <= target) && !("EMMC:" <= target)
    }
  }

  /** LoadFileContents on a regular file. */
  function Load(j: Job, disk: Disk, p: Path): (r: Option<seq<byte>>) {
    if p in disk then j.mask(disk[p].data) else None
  }

  /** Files that MakeFreeSpaceOnCache may delete: plain files of two directories, never the saved source. */
  predicate Expendable(p: Path) {
    p != CACHE_TEMP_SOURCE && (InDirectory(["cache"], p) || InDirectory(["cache", "recovery", "otatest"], p))
  }

  predicate InDirectory(dir: Path, p: Path) {
    |p| == |dir| + 1 && dir <= p
  }

  // ----- one run -----

  /** What the run patches: the source, or the copy that an earlier run saved. */
  datatype Pick = Source(data: seq<byte>) | Copy(data: seq<byte>)

  datatype Choice = AlreadyTarget | Use(pick: Pick) | NothingUsable

  /** Lines 643-699: look at the target, the source and the saved copy. */
  function Choose(j: Job, disk: Disk): (r: Choice) {
    var t := Load(j, disk, j.Target());
    if t.Some? && j.sha(t.value) == j.targetSha then AlreadyTarget
    else
      var s := if t.None? || j.target != j.source then Load(j, disk, j.Source()) else t;
      if s.Some? && j.sha(s.value) in j.patches then Use(Source(s.value))
      else
        var c := Load(j, disk, CACHE_TEMP_SOURCE);
        if c.Some? && j.sha(c.value) in j.patches then Use(Copy(c.value)) else NothingUsable
  }

  datatype Pc =
    | Ready                                   // not started, or the power came back
    | LoopHead                                // line 741
    | Freeing                                 // line 795
    | Saving(done: nat)                       // line 800: `done` bytes of the copy are written
    | SavedCopy                               // line 804
    | Opening                                 // line 849
    | Writing                                 // lines 866-873
    | Written(ok: bool, hashed: seq<byte>)    // line 884
    | Checked                                 // line 916
    | Renamed                                 // line 936
    | Done(status: int)

  datatype State = State(disk: Disk, pc: Pc, pick: Pick, retry: int, madeCopy: bool, rounds: nat)

  predicate Fail(s: State, t: State) {
    t == s.(pc := Done(1))
  }

  predicate Begin(j: Job, s: State, t: State) {
    s.pc.Ready? &&
    match Choose(j, s.disk)
    case AlreadyTarget => t == s.(pc := Done(0))
    case NothingUsable => t == s.(pc := Done(1))
    case Use(p) => t == s.(pc := LoopHead, pick := p, retry := 1, madeCopy := false, rounds := 0)
  }

  /** Lines 766-810 once the free space is known. */
  function AfterSpace(s: State, enough: bool): State {
    s.(retry := if enough then s.retry else 0, rounds := s.rounds + 1,
       pc := if !enough && s.pick.Source? then Freeing else Opening)
  }

  /** The free space is not under our control, and is not asked for on the retry. */
  predicate CheckSpace(s: State, t: State) {
    s.pc.LoopHead? && (t == AfterSpace(s, false) || (s.retry > 0 && t == AfterSpace(s, true)))
  }

  /** MakeFreeSpaceOnCache deletes expendable files one by one; then the copy is opened, truncating it. */
  ghost predicate FreeCache(s: State, t: State) {
    s.pc.Freeing? &&
    (Fail(s, t)
     || (exists p: Path :: Expendable(p) && t == s.(disk := s.disk - {p}))
     || t == s.(pc := Saving(0), disk := s.disk[CACHE_TEMP_SOURCE := File([], false)]))
  }

  /** FileSink writes any number of bytes at a time; after the last one the copy is fsync'ed. */
  ghost predicate SaveSource(s: State, t: State) {
    s.pc.Saving? && s.pc.done <= |s.pick.data| &&
    (Fail(s, t)
     || (exists n: nat :: s.pc.done < n <= |s.pick.data|
           && t == s.(pc := Saving(n), disk := s.disk[CACHE_TEMP_SOURCE := File(s.pick.data[..n], false)]))
     || (s.pc.done == |s.pick.data| && t.pc in {SavedCopy, Done(1)}
           && t == s.(pc := t.pc, disk := s.disk[CACHE_TEMP_SOURCE := File(s.pick.data, true)])))
  }

  /** Line 805; a failing unlink goes unnoticed. */
  predicate DropSource(j: Job, s: State, t: State) {
    s.pc.SavedCopy? &&
    var u := s.(pc := Opening, madeCopy := true);
    t == u.(disk := s.disk - {j.Source()}) || t == u
  }

  predicate OpenOutput(j: Job, s: State, t: State) {
    s.pc.Opening? && (Fail(s, t) || t == s.(pc := Writing, disk := s.disk[j.Outname() := File([], false)]))
  }

  /** The applier writes piece by piece, and can succeed with what it has written only as `applies` says. */
  ghost predicate WriteOutput(j: Job, s: State, t: State) {
    s.pc.Writing? && j.Outname() in s.disk &&
    var data := s.disk[j.Outname()].data;
    (Fail(s, t)
     || (exists more: seq<byte> :: t == s.(disk := s.disk[j.Outname() := File(data + more, false)]))
     || (exists ok: bool, hashed: seq<byte> :: (ok ==> j.applies(s.pick.data, hashed, data))
           && t == s.(pc := Written(ok, hashed), disk := s.disk[j.Outname() := File(data, true)])))
  }

  /** Lines 884-904. */
  predicate Judge(j: Job, s: State, t: State) {
    s.pc.Written? &&
    if s.pc.ok then t == s.(pc := if j.sha(s.pc.hashed) == j.targetSha then Checked else Done(1))
    else if s.retry == 0 then Fail(s, t)
    else t == s.(pc := LoopHead, retry := s.retry - 1, disk := s.disk - {j.Outname()})
  }

  predicate Rename(j: Job, s: State, t: State) {
    s.pc.Checked? && j.Outname() in s.disk &&
    (Fail(s, t) || t == s.(pc := Renamed, disk := (s.disk - {j.Outname()})[j.Target() := s.disk[j.Outname()]]))
  }

  predicate Clean(s: State, t: State) {
    s.pc.Renamed? && t == s.(pc := Done(0), disk := if s.madeCopy then s.disk - {CACHE_TEMP_SOURCE} else s.disk)
  }

  /** What can be left after a power failure: unsynced files hold anything. */
  ghost predicate Survives(disk: Disk, after: Disk) {
    && after.Keys <= disk.Keys
    && (forall p :: p in disk && disk[p].synced ==> p in after && after[p] == disk[p])
    && (forall p :: p in after ==> after[p].synced)
  }

  ghost predicate Crash(s: State, t: State) {
    t.pc.Ready? && Survives(s.disk, t.disk)
  }

  predicate Again(s: State, t: State) {
    s.pc.Done? && t == s.(pc := Ready)
  }

  /** A step of the program itself. */
  ghost predicate Work(j: Job, s: State, t: State) {
    || Begin(j, s, t) || CheckSpace(s, t) || FreeCache(s, t) || SaveSource(s, t) || DropSource(j, s, t)
    || OpenOutput(j, s, t) || WriteOutput(j, s, t) || Judge(j, s, t) || Rename(j, s, t) || Clean(s, t)
  }

  ghost predicate Step(j: Job, s: State, t: State) {
    Work(j, s, t) || Crash(s, t) || Again(s, t)
  }

  // ----- the invariant -----

  /** Regular files with the names that the protocol relies on being different. */
  predicate Admissible(j: Job) {
    && j.Regular()
    && !Expendable(j.Source()) && j.Source() != CACHE_TEMP_SOURCE && j.Target() != CACHE_TEMP_SOURCE
    && j.Source() != j.Outname()
  }

  /** A file that can be loaded and patched, also after a power failure. */
  ghost predicate Offers(j: Job, disk: Disk, p: Path) {
    p in disk && disk[p].synced && j.Keeps(disk[p].data)
  }

  ghost predicate TargetDone(j: Job, disk: Disk) {
    j.Target() in disk && disk[j.Target()].synced && j.Accepts(disk[j.Target()].data)
  }

  /** The target is done, the source is intact, or the saved copy is: something to go on from. */
  ghost predicate Safe(j: Job, disk: Disk) {
    || TargetDone(j, disk)
    || Offers(j, disk, j.Source())
    || Offers(j, disk, CACHE_TEMP_SOURCE)
  }

  /** The run has something to go on from on disk: the source, which it may save, or a copy. */
  ghost predicate Backed(j: Job, s: State) {
    && j.Loadable(s.pick.data)
    && if s.pick.Source? && !s.madeCopy then Offers(j, s.disk, j.Source()) && j.Keeps(s.pick.data)
       else Offers(j, s.disk, CACHE_TEMP_SOURCE)
  }

  ghost predicate Inv(j: Job, s: State) {
    && (forall p :: p in s.disk && !s.disk[p].synced ==> p == CACHE_TEMP_SOURCE || p == j.Outname())
    && match s.pc
       case Ready => Safe(j, s.disk)
       case Done(status) => Safe(j, s.disk) && (status == 0 ==> TargetDone(j, s.disk))
       case Renamed => TargetDone(j, s.disk)
       case LoopHead => Backed(j, s) && !s.madeCopy && 0 <= s.retry <= 1 && s.rounds + s.retry == 1
       case Freeing => Backed(j, s) && s.pick.Source? && !s.madeCopy && s.retry == 0 && 1 <= s.rounds <= 2
       case Saving(_) => Backed(j, s) && s.pick.Source? && !s.madeCopy && s.retry == 0 && 1 <= s.rounds <= 2
       case SavedCopy => Backed(j, s) && s.pick.Source? && !s.madeCopy && s.retry == 0 && 1 <= s.rounds <= 2
                         && Offers(j, s.disk, CACHE_TEMP_SOURCE)
       case Opening => Backed(j, s) && Rounds(s)
       case Writing => Backed(j, s) && Rounds(s) && j.Outname() in s.disk
       case Written(ok, hashed) => Backed(j, s) && Rounds(s) && j.Outname() in s.disk && s.disk[j.Outname()].synced
                                   && (ok ==> j.applies(s.pick.data, hashed, s.disk[j.Outname()].data))
       case Checked => Backed(j, s) && Rounds(s) && j.Outname() in s.disk && s.disk[j.Outname()].synced
                       && j.Accepts(s.disk[j.Outname()].data)
  }

  /** The loop body is entered at most twice, the last time with the source moved out of the way. */
  ghost predicate Rounds(s: State) {
    0 <= s.retry <= 1 && 1 <= s.rounds && s.rounds + s.retry <= 2 && (s.madeCopy <==> s.pick.Source? && s.retry == 0)
  }

  lemma OutnameApart(j: Job)
    ensures j.Outname() != CACHE_TEMP_SOURCE && j.Outname() != j.Target()
  {
    hide Resolve, Scan;
    Suffixed(j.target, ".patch");
    var name := Scan(j.target).name + ".patch";
    assert j.Outname()[|j.Outname()|-1] == name && name[|name|-1] == 'h';
    assert CACHE_TEMP_SOURCE[|CACHE_TEMP_SOURCE|-1] == "saved.file" && "saved.file"[9] == 'e';
  }

  lemma CacheResolves()
    ensures Resolve("/cache") == ["cache"]
  {
    hide Resolve;
    RootResolves();
    Below("", "cache");
    assert "/cache" == "" + ['/'] + "cache";
  }

  /** An empty component or "." leads nowhere else. */
  lemma CacheAgain()
    ensures Resolve("/cache/") == Resolve("/cache/.") == ["cache"]
  {
    hide Resolve;
    CacheResolves();
    Below("/cache", "");
    assert "/cache/" == "/cache" + ['/'] + "";
    Below("/cache", ".");
    assert "/cache/." == "/cache" + ['/'] + ".";
  }

  lemma CopyResolves()
    ensures Resolve("/cache/saved.file") == CACHE_TEMP_SOURCE
  {
    hide Resolve;
    CacheResolves();
    Below("/cache", "saved.file");
    assert "/cache/saved.file" == "/cache" + ['/'] + "saved.file";
  }

  /** The name of the copy, and two names of one expendable file. */
  lemma ResolvedNames()
    ensures Resolve("/cache/saved.file") == CACHE_TEMP_SOURCE
    ensures Resolve("/cache//foo") == Resolve("/cache/./foo") == ["cache", "foo"] && Expendable(["cache", "foo"])
  {
    hide Resolve;
    CopyResolves();
    CacheAgain();
    Below("/cache/", "foo");
    assert "/cache//foo" == "/cache/" + ['/'] + "foo";
    Below("/cache/.", "foo");
    assert "/cache/./foo" == "/cache/." + ['/'] + "foo";
  }

  /** A rerun on a safe disk finds the target done or something to patch. */
  lemma RerunFinds(j: Job, disk: Disk)
    requires Safe(j, disk)
    ensures !Choose(j, disk).NothingUsable?
  {
  }

  /** Files that lie directly in one of the two directories, but for the saved source, and no others. */
  lemma ExpendableExactly(dir: Path, name: string)
    ensures Expendable(dir + [name]) <==>
      dir == ["cache", "recovery", "otatest"] || (dir == ["cache"] && name != "saved.file")
    ensures !Expendable([])
  {
    var p := dir + [name];
    assert p[..|dir|] == dir && p[|dir|] == name;
    if |p| == 4 {
      assert InDirectory(["cache", "recovery", "otatest"], p) <==> dir == ["cache", "recovery", "otatest"];
    }
  }

  /** The target first, then the source, then the copy, also when target and source are one file. */
  lemma PickedInOrder(j: Job, disk: Disk)
    ensures var done := j.Target() in disk && j.Accepts(disk[j.Target()].data);
      var source := j.Source() in disk && j.Keeps(disk[j.Source()].data);
      var copy := CACHE_TEMP_SOURCE in disk && j.Keeps(disk[CACHE_TEMP_SOURCE].data);
      Choose(j, disk) ==
        if done then AlreadyTarget
        else if source then Use(Source(j.mask(disk[j.Source()].data).value))
        else if copy then Use(Copy(j.mask(disk[CACHE_TEMP_SOURCE].data).value))
        else NothingUsable
  {
  }

  lemma BeginBacked(j: Job, s: State, t: State)
    requires Inv(j, s) && Begin(j, s, t) && Admissible(j) && j.Storable()
    ensures Inv(j, t)
  {
    hide Expendable, Job.Outname, Job.Target, Job.Source, Choose;
    OutnameApart(j);
    RerunFinds(j, s.disk);
    PickedInOrder(j, s.disk);
  }

  lemma FreeKeeps(j: Job, s: State, t: State)
    requires Inv(j, s) && Admissible(j) && (FreeCache(s, t) || CheckSpace(s, t))
    ensures Inv(j, t)
  {
    hide Expendable, Job.Outname, Job.Target, Job.Source;
  }

  lemma SaveKeeps(j: Job, s: State, t: State)
    requires Inv(j, s) && Admissible(j) && (SaveSource(s, t) || DropSource(j, s, t))
    ensures Inv(j, t)
  {
    hide Expendable, Job.Outname, Job.Target, Job.Source;
  }

  lemma OpenKeeps(j: Job, s: State, t: State)
    requires Inv(j, s) && Admissible(j) && OpenOutput(j, s, t)
    ensures Inv(j, t)
  {
    hide Expendable, Job.Outname, Job.Target, Job.Source;
    OutnameApart(j);
  }

  /** Writing the output touches nothing that the run is based on. */
  lemma OutputKeeps(j: Job, s: State, t: State)
    requires Inv(j, s) && Admissible(j) && WriteOutput(j, s, t)
    ensures Inv(j, t)
  {
    hide Expendable, Job.Outname, Job.Target, Job.Source;
    OutnameApart(j);
  }

  lemma JudgeKeeps(j: Job, s: State, t: State)
    requires Inv(j, s) && Admissible(j) && j.Sound() && Judge(j, s, t)
    ensures Inv(j, t)
  {
    hide Expendable, Job.Outname, Job.Target, Job.Source;
    OutnameApart(j);
  }

  lemma RenameKeeps(j: Job, s: State, t: State)
    requires Inv(j, s) && Admissible(j) && (Rename(j, s, t) || Clean(s, t))
    ensures Inv(j, t)
  {
    hide Expendable, Job.Outname, Job.Target, Job.Source;
    OutnameApart(j);
  }

  lemma InvSafe(j: Job, s: State)
    requires Inv(j, s)
    ensures Safe(j, s.disk)
  {
  }

  lemma CrashSafe(j: Job, disk: Disk, after: Disk)
    requires Safe(j, disk) && Survives(disk, after)
    ensures Safe(j, after)
  {
  }

  /** Every step, a power failure included, keeps the invariant. */
  lemma StepKeeps(j: Job, s: State, t: State)
    requires Inv(j, s) && Step(j, s, t) && Admissible(j) && j.Storable() && j.Sound()
    ensures Inv(j, t)
  {
    hide Inv, Safe, Survives, Begin, CheckSpace, FreeCache, SaveSource, DropSource, OpenOutput, WriteOutput, Judge;
    hide Rename, Clean, Admissible, Job.Storable, Job.Sound;
    InvSafe(j, s);
    if Begin(j, s, t) {
      BeginBacked(j, s, t);
    } else if FreeCache(s, t) || CheckSpace(s, t) {
      FreeKeeps(j, s, t);
    } else if SaveSource(s, t) || DropSource(j, s, t) {
      SaveKeeps(j, s, t);
    } else if OpenOutput(j, s, t) {
      OpenKeeps(j, s, t);
    } else if WriteOutput(j, s, t) {
      OutputKeeps(j, s, t);
    } else if Judge(j, s, t) {
      JudgeKeeps(j, s, t);
    } else if Rename(j, s, t) || Clean(s, t) {
      RenameKeeps(j, s, t);
    } else if Crash(s, t) {
      CrashSafe(j, s.disk, t.disk);
      CrashInv(j, s, t);
    } else {
      AgainKeeps(j, s, t);
    }
  }

  lemma CrashInv(j: Job, s: State, t: State)
    requires Crash(s, t) && Safe(j, t.disk)
    ensures Inv(j, t)
  {
  }

  lemma AgainKeeps(j: Job, s: State, t: State)
    requires Inv(j, s) && Again(s, t)
    ensures Inv(j, t)
  {
  }

  // ----- whole runs -----

  /** Any number of runs, crashes and reruns, starting on a disk without unsynced files. */
  ghost predicate History(j: Job, h: seq<State>) {
    && h != [] && h[0].pc.Ready? && Safe(j, h[0].disk) && (forall p :: p in h[0].disk ==> h[0].disk[p].synced)
    && forall i :: 0 <= i < |h| - 1 ==> Step(j, h[i], h[i+1])
  }

  lemma {:induction false} HistoryInv(j: Job, h: seq<State>, i: nat)
    requires History(j, h) && Admissible(j) && j.Storable() && j.Sound() && i < |h|
    ensures Inv(j, h[i])
  {
    hide Step, Job.Storable, Job.Sound, Admissible;
    if i > 0 {
      HistoryInv(j, h, i - 1);
      assert Step(j, h[i-1], h[i-1+1]);
      StepKeeps(j, h[i-1], h[i]);
    }
  }

  /**
   At every point of every history the target is done, the source is intact or the copy is; so
   starting applypatch there, even after a power failure, exits early or finds a usable patch.
   */
  lemma AlwaysRecoverable(j: Job, h: seq<State>, i: nat, after: Disk)
    requires History(j, h) && Admissible(j) && j.Storable() && j.Sound() && i < |h|
    requires after == h[i].disk || Survives(h[i].disk, after)
    ensures Safe(j, h[i].disk) && !Choose(j, after).NothingUsable?
  {
    hide Step, Safe, Inv, Choose, Survives;
    HistoryInv(j, h, i);
    InvSafe(j, h[i]);
    if after != h[i].disk {
      CrashSafe(j, h[i].disk, after);
    }
    RerunFinds(j, after);
  }

  /**
   A run that reports success has left a target with the target digest, no run tries more than twice, and when
   it writes without enough space having been found, the source has been saved and unlinked first.
   */
  lemma SuccessMeansTarget(j: Job, h: seq<State>, i: nat)
    requires History(j, h) && Admissible(j) && j.Storable() && j.Sound() && i < |h|
    ensures h[i].pc == Done(0) ==> TargetDone(j, h[i].disk)
    ensures h[i].pc.Writing? ==> h[i].rounds <= 2
    ensures h[i].pc.LoopHead? ==> h[i].rounds <= 1
    ensures h[i].pc.Writing? ==> h[i].retry == 0 || h[i].retry == 1
    ensures h[i].pc.Writing? && h[i].retry == 0 && h[i].pick.Source? ==> h[i].madeCopy
  {
    HistoryInv(j, h, i);
  }

  // ----- a run can finish -----

  /** The program can get from `s` to `t`, without a power failure and without being started again. */
  ghost predicate Leads(j: Job, s: State, t: State) {
    exists h: seq<State> ::
      h != [] && h[0] == s && h[|h|-1] == t && forall i :: 0 <= i < |h| - 1 ==> Work(j, h[i], h[i+1])
  }

  lemma LeadsNowhere(j: Job, s: State)
    ensures Leads(j, s, s)
  {
    assert [s][0] == s;
  }

  lemma LeadsOn(j: Job, s: State, t: State, u: State)
    requires Work(j, s, t) && Leads(j, t, u)
    ensures Leads(j, s, u)
  {
    hide Work;
    var h: seq<State> :|
      h != [] && h[0] == t && h[|h|-1] == u && forall i :: 0 <= i < |h| - 1 ==> Work(j, h[i], h[i+1]);
    var g := [s] + h;
    forall i | 0 <= i < |g| - 1
      ensures Work(j, g[i], g[i+1])
    {
      if i > 0 {
        assert g[i] == h[i-1] && g[i+1] == h[i-1+1];
      }
    }
    assert g[|g|-1] == u;
  }

  /** What the applier makes of `data` in a good run. */
  ghost predicate Made(j: Job, data: seq<byte>, hashed: seq<byte>, written: seq<byte>) {
    j.applies(data, hashed, written) && j.sha(hashed) == j.targetSha
  }

  /** The target holds what was written, the output is gone, and so is the copy if this run made it. */
  ghost predicate Finished(j: Job, s: State, madeCopy: bool, written: seq<byte>) {
    && s.pc == Done(0) && j.Outname() !in s.disk
    && (madeCopy ==> CACHE_TEMP_SOURCE !in s.disk)
    && (!madeCopy || j.Target() != CACHE_TEMP_SOURCE ==>
        j.Target() in s.disk && s.disk[j.Target()] == File(written, true))
  }

  lemma FinishChecked(j: Job, s: State) returns (u: State)
    requires s.pc.Checked? && j.Outname() in s.disk && s.disk[j.Outname()].synced
    ensures Leads(j, s, u) && Finished(j, u, s.madeCopy, s.disk[j.Outname()].data)
  {
    hide Leads, Job.Outname, Job.Target;
    OutnameApart(j);
    var t := s.(pc := Renamed, disk := (s.disk - {j.Outname()})[j.Target() := s.disk[j.Outname()]]);
    u := t.(pc := Done(0), disk := if s.madeCopy then t.disk - {CACHE_TEMP_SOURCE} else t.disk);
    LeadsNowhere(j, u);
    assert Clean(t, u);
    LeadsOn(j, t, u, u);
    assert Rename(j, s, t);
    LeadsOn(j, s, t, u);
  }

  lemma FinishWriting(j: Job, s: State, hashed: seq<byte>, written: seq<byte>) returns (u: State)
    requires s.pc.Writing? && j.Outname() in s.disk && s.disk[j.Outname()].data == []
    requires Made(j, s.pick.data, hashed, written)
    ensures Leads(j, s, u) && Finished(j, u, s.madeCopy, written)
  {
    hide Leads, Finished, Job.Outname, Job.Target;
    var out := j.Outname();
    assert [] + written == written;
    var s1 := s.(disk := s.disk[out := File([] + written, false)]);
    var s2 := s1.(pc := Written(true, hashed), disk := s1.disk[out := File(written, true)]);
    var s3 := s2.(pc := Checked);
    u := FinishChecked(j, s3);
    assert Judge(j, s2, s3);
    LeadsOn(j, s2, s3, u);
    assert WriteOutput(j, s1, s2);
    LeadsOn(j, s1, s2, u);
    assert WriteOutput(j, s, s1);
    LeadsOn(j, s, s1, u);
  }

  lemma FinishOpening(j: Job, s: State, hashed: seq<byte>, written: seq<byte>) returns (u: State)
    requires s.pc.Opening? && Made(j, s.pick.data, hashed, written)
    ensures Leads(j, s, u) && Finished(j, u, s.madeCopy, written)
  {
    hide Leads, Finished, Job.Outname, Job.Target;
    var t := s.(pc := Writing, disk := s.disk[j.Outname() := File([], false)]);
    u := FinishWriting(j, t, hashed, written);
    assert OpenOutput(j, s, t);
    LeadsOn(j, s, t, u);
  }

  lemma FinishSaving(j: Job, s: State, hashed: seq<byte>, written: seq<byte>) returns (u: State)
    requires s.pc == Saving(|s.pick.data|) && Made(j, s.pick.data, hashed, written)
    ensures Leads(j, s, u) && Finished(j, u, true, written)
  {
    hide Leads, Finished, Job.Outname, Job.Target, Job.Source;
    var s1 := s.(pc := SavedCopy, disk := s.disk[CACHE_TEMP_SOURCE := File(s.pick.data, true)]);
    var s2 := s1.(pc := Opening, madeCopy := true, disk := s1.disk - {j.Source()});
    u := FinishOpening(j, s2, hashed, written);
    assert DropSource(j, s1, s2);
    LeadsOn(j, s1, s2, u);
    assert SaveSource(s, s1);
    LeadsOn(j, s, s1, u);
  }

  lemma FinishFreeing(j: Job, s: State, hashed: seq<byte>, written: seq<byte>) returns (u: State)
    requires s.pc.Freeing? && Made(j, s.pick.data, hashed, written)
    ensures Leads(j, s, u) && Finished(j, u, true, written)
  {
    hide Leads, Finished, Job.Outname, Job.Target;
    var data := s.pick.data;
    var s1 := s.(pc := Saving(0), disk := s.disk[CACHE_TEMP_SOURCE := File([], false)]);
    if data == [] {
      u := FinishSaving(j, s1, hashed, written);
    } else {
      var s2 := s1.(pc := Saving(|data|), disk := s1.disk[CACHE_TEMP_SOURCE := File(data[..|data|], false)]);
      u := FinishSaving(j, s2, hashed, written);
      assert SaveSource(s1, s2);
      LeadsOn(j, s1, s2, u);
    }
    assert FreeCache(s, s1);
    LeadsOn(j, s, s1, u);
  }

  /**
   Whatever the measured space is, for the source as for the copy, a run can go on to success; it makes a copy
   only of a source, and only if there was not enough.
   */
  lemma FinishHead(j: Job, s: State, t: State, hashed: seq<byte>, written: seq<byte>) returns (u: State)
    requires s.pc.LoopHead? && !s.madeCopy && CheckSpace(s, t) && Made(j, s.pick.data, hashed, written)
    ensures Leads(j, t, u) && Leads(j, s, u) && Finished(j, u, s.pick.Source? && t.retry == 0, written)
  {
    hide Leads, Finished, Made;
    if t.pc.Freeing? {
      u := FinishFreeing(j, t, hashed, written);
    } else {
      u := FinishOpening(j, t, hashed, written);
    }
    LeadsOn(j, s, t, u);
  }

  /** The space is measured on the first try alone, and both results are possible. */
  lemma SpaceMeasured(j: Job, s: State)
    requires s.pc.LoopHead?
    ensures exists t: State :: CheckSpace(s, t) && t.retry == 0
    ensures s.retry > 0 <==> exists t: State :: CheckSpace(s, t) && t.retry == s.retry > 0
  {
    assert CheckSpace(s, AfterSpace(s, false));
    if s.retry > 0 {
      assert CheckSpace(s, AfterSpace(s, true));
    }
  }

  /** A failed first attempt is tried again: it goes back to the loop, from where it can succeed. */
  lemma RetryFinishes(j: Job, s: State, t: State, hashed: seq<byte>, written: seq<byte>) returns (u: State)
    requires s.pc.Written? && !s.pc.ok && s.retry == 1 && !s.madeCopy && Made(j, s.pick.data, hashed, written)
    requires Judge(j, s, t)
    ensures Leads(j, s, u) && Finished(j, u, s.pick.Source?, written)
  {
    hide Leads, Finished, Made, CheckSpace;
    SpaceMeasured(j, t);
    var v: State :| CheckSpace(t, v) && v.retry == 0;
    u := FinishHead(j, t, v, hashed, written);
    LeadsOn(j, s, t, u);
  }

  /**
   Whenever applypatch is started again, after a power failure at any point of any history as after a run that
   failed, it can end in success with the target done.
   */
  lemma RerunFinishes(j: Job, h: seq<State>, i: nat, s: State, result: seq<byte>) returns (u: State)
    requires History(j, h) && Admissible(j) && j.Storable() && j.Sound() && i < |h|
    requires s.pc.Ready? && (Survives(h[i].disk, s.disk) || (h[i].pc.Done? && s.disk == h[i].disk))
    requires j.Accepts(result) && forall d: seq<byte> :: j.Loadable(d) ==> Made(j, d, result, result)
    ensures Leads(j, s, u) && u.pc == Done(0) && TargetDone(j, u.disk)
  {
    hide Leads, Made, History, Job.Storable, Job.Sound, Job.Loadable;
    HistoryInv(j, h, i);
    RestartInv(j, h[i], s);
    hide Admissible;
    var t := if Choose(j, s.disk).AlreadyTarget? then s.(pc := Done(0))
      else s.(pc := LoopHead, pick := Choose(j, s.disk).pick, retry := 1, madeCopy := false, rounds := 0);
    RestartWorks(j, s, t);
    if t.pc.Done? {
      u := t;
      LeadsNowhere(j, t);
    } else {
      hide Choose, CheckSpace, Inv;
      SpaceMeasured(j, t);
      var v: State :| CheckSpace(t, v) && v.retry == 0;
      u := FinishHead(j, t, v, result, result);
    }
    LeadsOn(j, s, t, u);
  }

  lemma RestartInv(j: Job, s: State, t: State)
    requires Inv(j, s) && t.pc.Ready? && (Survives(s.disk, t.disk) || (s.pc.Done? && t.disk == s.disk))
    ensures Inv(j, t) && Safe(j, t.disk)
  {
    hide Job.Outname, Job.Target, Job.Source, Job.Keeps, Job.Accepts;
    InvSafe(j, s);
    if Survives(s.disk, t.disk) {
      CrashSafe(j, s.disk, t.disk);
    }
  }

  lemma RestartWorks(j: Job, s: State, t: State)
    requires Inv(j, s) && s.pc.Ready? && Admissible(j) && j.Storable()
    requires t == if Choose(j, s.disk).AlreadyTarget? then s.(pc := Done(0))
      else s.(pc := LoopHead, pick := Choose(j, s.disk).pick, retry := 1, madeCopy := false, rounds := 0)
    ensures Work(j, s, t) && (t.pc.Done? ==> TargetDone(j, t.disk)) && (t.pc.LoopHead? ==> j.Loadable(t.pick.data))
  {
    hide Expendable, Job.Outname, Job.Target, Job.Source, Job.Storable, Choose;
    OutnameApart(j);
    RerunFinds(j, s.disk);
    PickedInOrder(j, s.disk);
    assert Begin(j, s, t);
    BeginBacked(j, s, t);
  }

  // ----- what a run leaves alone -----

  /** One run, from its start on. */
  ghost predicate Run(j: Job, h: seq<State>) {
    h != [] && h[0].pc.Ready? && forall i :: 0 <= i < |h| - 1 ==> Work(j, h[i], h[i+1])
  }

  /** The files that a run may change: with a copy to go on from, neither that copy nor the source. */
  predicate Own(j: Job, pick: Pick, p: Path) {
    || p == j.Target() || p == j.Outname()
    || (pick.Source? && (p == j.Source() || p == CACHE_TEMP_SOURCE || Expendable(p)))
  }

  ghost predicate Same(a: Disk, b: Disk, p: Path) {
    (p in a <==> p in b) && (p in a ==> a[p] == b[p])
  }

  /** A run saves only what it has taken from the source. */
  ghost predicate Sourced(s: State) {
    s.pc.Ready? || s.pc.Done? || (s.pc.Freeing? || s.pc.Saving? || s.pc.SavedCopy? || s.madeCopy ==> s.pick.Source?)
  }

  lemma WorkSourced(j: Job, s: State, t: State)
    requires Work(j, s, t) && Sourced(s)
    ensures Sourced(t) && !t.pc.Ready? && (s.pc.Ready? || s.pick == t.pick)
  {
    hide Expendable, Job.Outname, Job.Target, Job.Source, Choose;
  }

  lemma WorkTouches(j: Job, s: State, t: State, p: Path)
    requires Work(j, s, t) && Sourced(s) && !Own(j, t.pick, p)
    ensures Same(s.disk, t.disk, p)
  {
    hide Begin, CheckSpace, FreeCache, SaveSource, DropSource, OpenOutput, WriteOutput, Judge, Rename, Clean;
    hide Sourced, Own;
    if FreeCache(s, t) || SaveSource(s, t) || DropSource(j, s, t) {
      SavingTouches(j, s, t, p);
    } else {
      OutputTouches(j, s, t, p);
    }
  }

  lemma SavingTouches(j: Job, s: State, t: State, p: Path)
    requires (FreeCache(s, t) || SaveSource(s, t) || DropSource(j, s, t)) && Sourced(s) && !Own(j, t.pick, p)
    ensures Same(s.disk, t.disk, p)
  {
    hide Expendable, Job.Outname, Job.Target, Job.Source;
  }

  lemma OutputTouches(j: Job, s: State, t: State, p: Path)
    requires Begin(j, s, t) || CheckSpace(s, t) || OpenOutput(j, s, t) || WriteOutput(j, s, t) || Judge(j, s, t)
      || Rename(j, s, t) || Clean(s, t)
    requires Sourced(s) && !Own(j, t.pick, p)
    ensures Same(s.disk, t.disk, p)
  {
    hide Expendable, Job.Outname, Job.Target, Job.Source, Choose;
  }

  lemma {:induction false} RunSourced(j: Job, h: seq<State>, i: nat)
    requires Run(j, h) && i < |h|
    ensures Sourced(h[i]) && (h[i].pc.Ready? ==> i == 0)
  {
    hide Work;
    if i > 0 {
      RunSourced(j, h, i - 1);
      assert Work(j, h[i-1], h[i-1+1]);
      WorkSourced(j, h[i-1], h[i]);
    }
  }

  /** Every file that is not the run's own is at every moment as it was at the start. */
  lemma {:induction false} RunTouches(j: Job, h: seq<State>, i: nat, p: Path)
    requires Run(j, h) && i < |h| && !Own(j, h[i].pick, p)
    ensures Same(h[0].disk, h[i].disk, p)
  {
    hide Work, Own, Sourced;
    if i > 0 {
      RunSourced(j, h, i - 1);
      assert Work(j, h[i-1], h[i-1+1]);
      WorkSourced(j, h[i-1], h[i]);
      WorkTouches(j, h[i-1], h[i], p);
      if i > 1 {
        RunTouches(j, h, i - 1, p);
      }
    }
  }

  // ----- the conditions on the names are exact -----

  ghost predicate Reaches(j: Job, s: State) {
    exists h: seq<State> :: History(j, h) && h[|h|-1] == s
  }

  lemma ReachStart(j: Job, s: State)
    requires s.pc.Ready? && Safe(j, s.disk) && forall p :: p in s.disk ==> s.disk[p].synced
    ensures Reaches(j, s)
  {
    assert History(j, [s]);
  }

  lemma ReachStep(j: Job, s: State, t: State)
    requires Reaches(j, s) && Step(j, s, t)
    ensures Reaches(j, t)
  {
    hide Step, Safe;
    var h: seq<State> :| History(j, h) && h[|h|-1] == s;
    var g := h + [t];
    forall i | 0 <= i < |g| - 1
      ensures Step(j, g[i], g[i+1])
    {
      if i < |h| - 1 {
        assert g[i] == h[i] && g[i+1] == h[i+1];
      }
    }
    assert History(j, g);
  }

  lemma ReachLeads(j: Job, s: State, t: State)
    requires Reaches(j, s) && Leads(j, s, t)
    ensures Reaches(j, t)
  {
    hide Work, Crash, Again, Safe;
    var h: seq<State> :| History(j, h) && h[|h|-1] == s;
    var k: seq<State> :|
      k != [] && k[0] == s && k[|k|-1] == t && forall i :: 0 <= i < |k| - 1 ==> Work(j, k[i], k[i+1]);
    var g := h + k[1..];
    forall i | 0 <= i < |g| - 1
      ensures Step(j, g[i], g[i+1])
    {
      if i < |h| - 1 {
        assert g[i] == h[i] && g[i+1] == h[i+1];
      } else {
        var n := i + 1 - |h|;
        assert g[i] == k[n] && g[i+1] == k[n+1];
      }
    }
    assert g[|g|-1] == t;
    assert History(j, g);
  }

  /** The disk that holds the source and nothing else. */
  function SourceOnly(j: Job, x: seq<byte>): Disk {
    map[j.Source() := File(x, true)]
  }

  /** A run on that disk has picked the source. */
  lemma ReachHead(j: Job, x: seq<byte>, data: seq<byte>) returns (s: State)
    requires j.mask(x) == Some(data) && j.Taken(data)
    ensures s == State(SourceOnly(j, x), LoopHead, Source(data), 1, false, 0) && Reaches(j, s)
  {
    var s0 := State(SourceOnly(j, x), Ready, Source(data), 1, false, 0);
    assert Offers(j, s0.disk, j.Source());
    ReachStart(j, s0);
    s := s0.(pc := LoopHead);
    assert Begin(j, s0, s);
    ReachStep(j, s0, s);
  }

  lemma ReachFreeing(j: Job, x: seq<byte>, data: seq<byte>) returns (s: State)
    requires j.mask(x) == Some(data) && j.Taken(data)
    ensures s == State(SourceOnly(j, x), Freeing, Source(data), 0, false, 1) && Reaches(j, s)
  {
    hide Reaches;
    var s1 := ReachHead(j, x, data);
    s := AfterSpace(s1, false);
    assert CheckSpace(s1, s);
    ReachStep(j, s1, s);
  }

  /** An expendable source can be deleted before it is saved. */
  lemma ExpendableIsLost(j: Job, x: seq<byte>, data: seq<byte>) returns (s: State)
    requires j.mask(x) == Some(data) && j.Taken(data) && Expendable(j.Source())
    ensures Reaches(j, s) && !Safe(j, s.disk)
  {
    hide Reaches;
    var s2 := ReachFreeing(j, x, data);
    s := s2.(disk := s2.disk - {j.Source()});
    assert FreeCache(s2, s);
    ReachStep(j, s2, s);
    assert s.disk == map[];
  }

  /** A source under the name of the copy is truncated by saving it. */
  lemma SavedSourceIsLost(j: Job, x: seq<byte>, data: seq<byte>) returns (s: State)
    requires j.mask(x) == Some(data) && j.Taken(data) && j.Source() == CACHE_TEMP_SOURCE
    ensures Reaches(j, s) && !Safe(j, s.disk)
  {
    hide Reaches;
    var s2 := ReachFreeing(j, x, data);
    s := s2.(pc := Saving(0), disk := s2.disk[CACHE_TEMP_SOURCE := File([], false)]);
    assert FreeCache(s2, s);
    ReachStep(j, s2, s);
    assert s.disk == map[j.Source() := File([], false)];
  }

  /** A source under the name of the output is truncated by opening it. */
  lemma OutputSourceIsLost(j: Job, x: seq<byte>, data: seq<byte>) returns (s: State)
    requires j.mask(x) == Some(data) && j.Taken(data) && j.Source() == j.Outname()
    ensures Reaches(j, s) && !Safe(j, s.disk)
  {
    hide Reaches;
    var s1 := ReachHead(j, x, data);
    var s2 := AfterSpace(s1, true);
    assert CheckSpace(s1, s2);
    ReachStep(j, s1, s2);
    s := s2.(pc := Writing, disk := s2.disk[j.Outname() := File([], false)]);
    assert OpenOutput(j, s2, s);
    ReachStep(j, s2, s);
    assert s.disk == map[j.Source() := File([], false)];
  }

  /** The copy is on disk and the source is gone. */
  lemma ReachCopied(j: Job, x: seq<byte>, data: seq<byte>) returns (s: State)
    requires j.mask(x) == Some(data) && j.Taken(data) && j.Source() != CACHE_TEMP_SOURCE
    ensures s == State(map[CACHE_TEMP_SOURCE := File(data, true)], Opening, Source(data), 0, true, 1) && Reaches(j, s)
  {
    hide Reaches;
    var s2 := ReachFreeing(j, x, data);
    var s3 := s2.(pc := Saving(0), disk := s2.disk[CACHE_TEMP_SOURCE := File([], false)]);
    assert FreeCache(s2, s3);
    ReachStep(j, s2, s3);
    var s4 := s3.(pc := Saving(|data|), disk := s3.disk[CACHE_TEMP_SOURCE := File(data[..|data|], false)]);
    if data != [] {
      assert SaveSource(s3, s4);
      ReachStep(j, s3, s4);
    } else {
      assert s4 == s3;
    }
    var s5 := s4.(pc := SavedCopy, disk := s4.disk[CACHE_TEMP_SOURCE := File(data, true)]);
    assert SaveSource(s4, s5);
    ReachStep(j, s4, s5);
    s := s5.(pc := Opening, madeCopy := true, disk := s5.disk - {j.Source()});
    assert DropSource(j, s5, s);
    ReachStep(j, s5, s);
    assert s.disk == map[CACHE_TEMP_SOURCE := File(data, true)];
  }

  /** From there a successful run ends by deleting the copy, which is the target if the two names are one. */
  lemma TargetCopyIsLost(j: Job, x: seq<byte>, data: seq<byte>, result: seq<byte>) returns (s: State)
    requires j.mask(x) == Some(data) && j.Taken(data) && j.sha(result) == j.targetSha
    requires j.applies(data, result, result)
    requires j.Target() == CACHE_TEMP_SOURCE && j.Source() != CACHE_TEMP_SOURCE
    ensures Reaches(j, s) && !Safe(j, s.disk)
  {
    hide Reaches;
    OutnameApart(j);
    var out := j.Outname();
    var s6 := ReachCopied(j, x, data);
    var s7 := s6.(pc := Writing, disk := s6.disk[out := File([], false)]);
    assert OpenOutput(j, s6, s7);
    ReachStep(j, s6, s7);
    var s8 := s7.(disk := s7.disk[out := File([] + result, false)]);
    assert WriteOutput(j, s7, s8);
    ReachStep(j, s7, s8);
    var s9 := s8.(pc := Written(true, result), disk := s8.disk[out := File([] + result, true)]);
    assert [] + result == result;
    assert WriteOutput(j, s8, s9);
    ReachStep(j, s8, s9);
    s := ReachCleaned(j, s9, result);
  }

  lemma ReachCleaned(j: Job, s9: State, result: seq<byte>) returns (s: State)
    requires Reaches(j, s9) && s9.pc == Written(true, result) && j.sha(result) == j.targetSha && s9.madeCopy
    requires j.Target() == CACHE_TEMP_SOURCE && j.Outname() in s9.disk
    requires s9.disk.Keys == {j.Outname(), CACHE_TEMP_SOURCE}
    requires j.Source() != CACHE_TEMP_SOURCE
    ensures Reaches(j, s) && !Safe(j, s.disk)
  {
    hide Reaches;
    var s10 := s9.(pc := Checked);
    assert Judge(j, s9, s10);
    ReachStep(j, s9, s10);
    var s11 := s10.(pc := Renamed, disk := (s10.disk - {j.Outname()})[j.Target() := s10.disk[j.Outname()]]);
    assert Rename(j, s10, s11);
    ReachStep(j, s10, s11);
    s := s11.(pc := Done(0), disk := s11.disk - {CACHE_TEMP_SOURCE});
    assert Clean(s11, s);
    ReachStep(j, s11, s);
    assert s.disk.Keys == {};
  }

  /** The run succeeds on a copy, but what it has written is not the target. */
  lemma UnsoundSucceeds(j: Job, x: seq<byte>, data: seq<byte>, hashed: seq<byte>, written: seq<byte>) returns (s: State)
    requires Admissible(j) && j.mask(x) == Some(data) && j.Patchable(data) && j.applies(data, hashed, written)
    requires j.sha(hashed) == j.targetSha && !j.Accepts(written)
    ensures Reaches(j, s) && s.pc == Done(0) && !TargetDone(j, s.disk)
  {
    hide Reaches, Leads;
    OutnameApart(j);
    var s0 := State(map[CACHE_TEMP_SOURCE := File(x, true)], Ready, Copy(data), 1, false, 0);
    assert Offers(j, s0.disk, CACHE_TEMP_SOURCE);
    ReachStart(j, s0);
    var s1 := s0.(pc := LoopHead);
    assert Begin(j, s0, s1);
    var s2 := AfterSpace(s1, true);
    assert CheckSpace(s1, s2);
    s := FinishHead(j, s1, s2, hashed, written);
    LeadsOn(j, s0, s1, s);
    ReachLeads(j, s0, s);
  }

  /** Nothing is lost, and success means that the target is done. */
  ghost predicate Good(j: Job, s: State) {
    Safe(j, s.disk) && (s.pc == Done(0) ==> TargetDone(j, s.disk))
  }

  /** A source whose masked form cannot be loaded again is lost when it is saved and removed. */
  lemma UnstorableIsLost(j: Job, x: seq<byte>, data: seq<byte>) returns (s: State)
    requires Admissible(j) && j.mask(x) == Some(data) && j.Taken(data) && !j.Keeps(data)
    ensures Reaches(j, s) && !Safe(j, s.disk)
  {
    hide Reaches;
    s := ReachCopied(j, x, data);
  }

  /**
   For any job on regular files that has something to do and a way to do it, every reachable state is good if
   and only if the source is not expendable, source, target, copy and output are the files the protocol
   assumes, what is taken from the source keeps as a copy, and the applier's digest vouches for what it has
   written.
   */
  lemma GoodExactly(j: Job, x: seq<byte>, data: seq<byte>, result: seq<byte>)
    requires j.Regular() && j.mask(x) == Some(data) && j.Taken(data)
    requires j.sha(result) == j.targetSha && j.applies(data, result, result)
    ensures Admissible(j) && j.Storable() && j.Sound() <==> forall s: State :: Reaches(j, s) ==> Good(j, s)
  {
    if Admissible(j) && j.Storable() && j.Sound() {
      forall s: State | Reaches(j, s)
        ensures Good(j, s)
      {
        hide Job.Sound, Job.Storable;
        var h: seq<State> :| History(j, h) && h[|h|-1] == s;
        HistoryInv(j, h, |h| - 1);
        InvSafe(j, s);
      }
    } else {
      hide Reaches, Safe, TargetDone;
      var s;
      if Expendable(j.Source()) {
        s := ExpendableIsLost(j, x, data);
      } else if j.Source() == CACHE_TEMP_SOURCE {
        s := SavedSourceIsLost(j, x, data);
      } else if j.Source() == j.Outname() {
        s := OutputSourceIsLost(j, x, data);
      } else if j.Target() == CACHE_TEMP_SOURCE {
        s := TargetCopyIsLost(j, x, data, result);
      } else {
        s := UnfitFails(j);
      }
      assert Reaches(j, s) && !Good(j, s);
    }
  }

  lemma UnfitFails(j: Job) returns (s: State)
    requires Admissible(j) && !(j.Storable() && j.Sound())
    ensures Reaches(j, s) && !Good(j, s)
  {
    hide Reaches, Safe, TargetDone, Admissible;
    if !j.Storable() {
      var y: seq<byte> :| j.mask(y).Some? && j.Taken(j.mask(y).value) && !j.Keeps(j.mask(y).value);
      s := UnstorableIsLost(j, y, j.mask(y).value);
    } else {
      var d: seq<byte>, h: seq<byte>, w: seq<byte> :|
        j.Loadable(d) && j.applies(d, h, w) && j.sha(h) == j.targetSha && !j.Accepts(w);
      var y: seq<byte> :| j.mask(y) == Some(d);
      s := UnsoundSucceeds(j, y, d, h, w);
    }
  }
}
