/** Runs of uploads and boots: what the restore keeps when each boot may stop
    after any of its renames. */
module RestoreRuns {
  import opened Common
  import opened Restore

  /** An upload is staged only when it looks like a database; a start runs the
      restore, with so many renames to go. */
  datatype Event = Upload(content: Bytes) | Start(stamp: nat, budget: nat)

  function Next(f: Files, ev: Event): Files {
    match ev
    case Upload(content) => if IsDatabase(content) then f[Pending := content] else f
    case Start(stamp, budget) => AfterBoot(f, stamp, budget)
  }

  function After(f: Files, evs: seq<Event>): Files
    decreases |evs|
  {
    if evs == [] then f else After(Next(f, evs[0]), evs[1..])
  }

  predicate OnlyStarts(evs: seq<Event>) { forall i :: 0 <= i < |evs| ==> evs[i].Start? }

  // ---- One upload, any number of boots ----

  /** The old file of a suffix is there, under its own or a backup name. */
  ghost predicate Kept(f0: Files, f: Files, s: Suffix) {
    Live(s) in f0 ==>
      Lookup(f, Live(s)) == Lookup(f0, Live(s)) || exists stamp :: Lookup(f, Backup(stamp, s)) == Lookup(f0, Live(s))
  }

  /** Before the install the upload is untouched and no live file is new; after
      it the upload is the live database, alone. */
  ghost predicate Safe(f0: Files, f: Files)
    requires Pending in f0
  {
    && (if Pending in f
        then f[Pending] == f0[Pending] && forall s :: Live(s) in f ==> Lookup(f, Live(s)) == Lookup(f0, Live(s))
        else Lookup(f, Live(Main)) == Some(f0[Pending]) && Live(Wal) !in f && Live(Shm) !in f)
    && (forall s: Suffix :: Kept(f0, f, s))
    && (forall name :: Lookup(f, Other(name)) == Lookup(f0, Other(name)))
  }

  lemma BootKeepsFile(f0: Files, f: Files, stamp: nat, budget: nat, s: Suffix)
    requires Ready(f0) && Ready(f) && Safe(f0, f)
    ensures Kept(f0, AfterBoot(f, stamp, budget), s)
  {
    var g := AfterBoot(f, stamp, budget);
    assert Kept(f0, f, s);
    MovedIsLive(f, budget, s);
    if Live(s) in f {
      BootEffect(f, stamp, budget, Live(s));
      BootEffect(f, stamp, budget, Backup(stamp, s));
    } else if Live(s) in f0 {
      var t :| Lookup(f, Backup(t, s)) == Lookup(f0, Live(s));
      BootEffect(f, stamp, budget, Backup(t, s));
      assert Lookup(g, Backup(t, s)) == Lookup(f0, Live(s));
    }
  }

  lemma BootKeepsSafe(f0: Files, f: Files, stamp: nat, budget: nat)
    requires Ready(f0) && Safe(f0, f)
    ensures Safe(f0, AfterBoot(f, stamp, budget))
  {
    if Pending in f {
      var g := AfterBoot(f, stamp, budget);
      BootEffect(f, stamp, budget, Pending);
      forall s: Suffix
        ensures Kept(f0, g, s)
        ensures Installs(f, budget) ==> Lookup(g, Live(s)) == if s == Main then Some(f[Pending]) else None
        ensures !Installs(f, budget) && Live(s) in g ==> Lookup(g, Live(s)) == Lookup(f, Live(s))
      {
        BootKeepsFile(f0, f, stamp, budget, s);
        BootEffect(f, stamp, budget, Live(s));
      }
      forall name
        ensures Lookup(g, Other(name)) == Lookup(f0, Other(name))
      {
        BootEffect(f, stamp, budget, Other(name));
      }
    }
  }

  lemma {:induction false} RunKeepsSafe(f0: Files, f: Files, evs: seq<Event>)
    requires Ready(f0) && Safe(f0, f) && OnlyStarts(evs)
    ensures Safe(f0, After(f, evs))
    decreases |evs|
  {
    if evs != [] {
      BootKeepsSafe(f0, f, evs[0].stamp, evs[0].budget);
      RunKeepsSafe(f0, Next(f, evs[0]), evs[1..]);
    }
  }

  /** Crash safety. However often the restore is stopped and run again, and
      whatever the stamps: the uploaded bytes are at the pending or the live path,
      every old live file is there under its own or a backup name, other files
      are untouched, and no old wal or shm stands beside the installed database. */
  lemma RestoreIsCrashSafe(f0: Files, evs: seq<Event>)
    requires Ready(f0) && OnlyStarts(evs)
    ensures Safe(f0, After(f0, evs)) && Safe(f0, f0)
  {
    RunKeepsSafe(f0, f0, evs);
  }

  /** Backups from before the upload are kept too, whenever no boot has the stamp
      of one whose suffix has a live file. Any state that boots have left will do
      for `f`, the one before the first among them. */
  lemma {:induction false} EarlierBackupsAreKept(f0: Files, f: Files, evs: seq<Event>)
    requires Ready(f0) && Safe(f0, f) && BackupsSurvive(f0, f) && OnlyStarts(evs)
    requires forall i, s :: 0 <= i < |evs| && Live(s) in f0 ==> Backup(evs[i].stamp, s) !in f0
    ensures BackupsSurvive(f0, After(f, evs))
    decreases |evs|
  {
    if evs != [] {
      var b := evs[0];
      var g := Next(f, b);
      BootKeepsSafe(f0, f, b.stamp, b.budget);
      if Ready(f) {
        forall t, s | Backup(t, s) in f0
          ensures Lookup(g, Backup(t, s)) == Lookup(f0, Backup(t, s))
        {
          BootEffect(f, b.stamp, b.budget, Backup(t, s));
          MovedIsLive(f, b.budget, s);
        }
      }
      EarlierBackupsAreKept(f0, g, evs[1..]);
    }
  }

  /** One boot that is not stopped finishes the restore, wherever earlier boots
      were stopped; after that, boots change nothing. */
  lemma RestoreFinishes(f0: Files, evs: seq<Event>, stamp: nat, budget: nat, later: seq<Event>)
    requires Ready(f0) && OnlyStarts(evs) && OnlyStarts(later) && budget > 3
    ensures var g := AfterBoot(After(f0, evs), stamp, budget);
      Pending !in g && Lookup(g, Live(Main)) == Some(f0[Pending]) && After(g, later) == g
  {
    var f := After(f0, evs);
    RestoreIsCrashSafe(f0, evs);
    AtMostThree(f, 0);
    if Pending in f {
      BootEffect(f, stamp, budget, Pending);
      BootEffect(f, stamp, budget, Live(Main));
    }
    BadUploadChangesNothing(AfterBoot(f, stamp, budget), later);
  }

  /** Without a file that looks like a database at the pending path, nothing
      ever moves. */
  lemma {:induction false} BadUploadChangesNothing(f: Files, evs: seq<Event>)
    requires !Ready(f) && OnlyStarts(evs)
    ensures After(f, evs) == f
    decreases |evs|
  {
    if evs != [] { BadUploadChangesNothing(f, evs[1..]); }
  }

  // ---- Any run: what is ever live is kept ----

  /** These bytes are the live file of a suffix, or a backup of one. */
  ghost predicate Held(f: Files, s: Suffix, bytes: Bytes) {
    Lookup(f, Live(s)) == Some(bytes) || exists t :: Lookup(f, Backup(t, s)) == Some(bytes)
  }

  /** No rename of the boot lands on a backup. */
  ghost predicate Clear(f: Files, stamp: nat, budget: nat) {
    Ready(f) ==> forall s :: s in Moved(f, budget) ==> Backup(stamp, s) !in f
  }

  ghost predicate AlwaysClear(f: Files, evs: seq<Event>)
    decreases |evs|
  {
    evs == [] || ((evs[0].Start? ==> Clear(f, evs[0].stamp, evs[0].budget)) && AlwaysClear(Next(f, evs[0]), evs[1..]))
  }

  lemma BootKeepsHeld(f: Files, stamp: nat, budget: nat, s: Suffix, bytes: Bytes)
    requires Clear(f, stamp, budget) && Held(f, s, bytes)
    ensures Held(AfterBoot(f, stamp, budget), s, bytes)
  {
    if Ready(f) {
      var g := AfterBoot(f, stamp, budget);
      if Lookup(f, Live(s)) == Some(bytes) {
        BootEffect(f, stamp, budget, Live(s));
        BootEffect(f, stamp, budget, Backup(stamp, s));
        MovedIsLive(f, budget, s);
      } else {
        var t :| Lookup(f, Backup(t, s)) == Some(bytes);
        BootEffect(f, stamp, budget, Backup(t, s));
        assert Lookup(g, Backup(t, s)) == Some(bytes);
      }
    }
  }

  /** In every run of uploads and boots where no rename lands on a backup, every
      file that is ever live or a backup stays one of the two. */
  lemma {:induction false} FilesAreKept(f: Files, evs: seq<Event>, s: Suffix, bytes: Bytes)
    requires AlwaysClear(f, evs) && Held(f, s, bytes)
    ensures Held(After(f, evs), s, bytes)
    decreases |evs|
  {
    if evs != [] {
      var ev := evs[0];
      match ev {
        case Upload(_) =>
          assert forall p: Path :: !p.Pending? ==> Lookup(Next(f, ev), p) == Lookup(f, p);
        case Start(stamp, budget) => BootKeepsHeld(f, stamp, budget, s, bytes);
      }
      FilesAreKept(Next(f, ev), evs[1..], s, bytes);
    }
  }

  /** Boots may share a stamp as long as no upload came between them, and none
      uses a stamp from before the last upload. */
  predicate Timely(evs: seq<Event>, past: set<nat>, current: set<nat>)
    decreases |evs|
  {
    evs == [] ||
    match evs[0]
    case Upload(content) =>
      if IsDatabase(content) then Timely(evs[1..], past + current, {}) else Timely(evs[1..], past, current)
    case Start(stamp, _) => stamp !in past && Timely(evs[1..], past, current + {stamp})
  }

  /** A backup from since the last upload has no live file above it that a boot
      could still move. */
  ghost predicate Dated(f: Files, past: set<nat>, current: set<nat>) {
    forall t, s :: Backup(t, s) in f ==> t in past || (t in current && (Live(s) !in f || Pending !in f))
  }

  lemma BootKeepsDated(f: Files, stamp: nat, budget: nat, past: set<nat>, current: set<nat>)
    requires Dated(f, past, current) && stamp !in past
    ensures Clear(f, stamp, budget) && Dated(AfterBoot(f, stamp, budget), past, current + {stamp})
  {
    if Ready(f) {
      var g := AfterBoot(f, stamp, budget);
      forall s | s in Moved(f, budget)
        ensures Backup(stamp, s) !in f
      {
        MovedIsLive(f, budget, s);
      }
      forall t, s | Backup(t, s) in g
        ensures t in past || (t in current + {stamp} && (Live(s) !in g || Pending !in g))
      {
        BootEffect(f, stamp, budget, Backup(t, s));
        BootEffect(f, stamp, budget, Live(s));
        BootEffect(f, stamp, budget, Pending);
        MovedIsLive(f, budget, s);
      }
    }
  }

  /** Such stamps are enough: no rename ever lands on a backup. */
  lemma {:induction false} TimelyIsClear(f: Files, evs: seq<Event>, past: set<nat>, current: set<nat>)
    requires Dated(f, past, current) && Timely(evs, past, current)
    ensures AlwaysClear(f, evs)
    decreases |evs|
  {
    if evs != [] {
      match evs[0] {
        case Upload(content) =>
          if IsDatabase(content) {
            TimelyIsClear(f[Pending := content], evs[1..], past + current, {});
          } else {
            TimelyIsClear(f, evs[1..], past, current);
          }
        case Start(stamp, budget) =>
          BootKeepsDated(f, stamp, budget, past, current);
          TimelyIsClear(AfterBoot(f, stamp, budget), evs[1..], past, current + {stamp});
      }
    }
  }

  // ---- Two restores in one second ----

  lemma FullBoot(live: Bytes, staged: Bytes, stamp: nat, f: Files)
    requires IsDatabase(staged)
    requires Lookup(f, Live(Main)) == Some(live) && Lookup(f, Pending) == Some(staged)
    requires forall p :: p in f ==> p == Live(Main) || p == Pending || p == Backup(stamp, Main)
    ensures AfterBoot(f, stamp, 4) == map[Live(Main) := staged, Backup(stamp, Main) := live]
  {
    var g := AfterBoot(f, stamp, 4);
    var want: Files := map[Live(Main) := staged, Backup(stamp, Main) := live];
    AtMostThree(f, 0);
    forall p: Path
      ensures Lookup(g, p) == Lookup(want, p)
    {
      BootEffect(f, stamp, 4, p);
      if p.Backup? { MovedIsLive(f, 4, p.suffix); }
    }
    SameFiles(g, want);
  }

  lemma SameFiles(f: Files, g: Files)
    requires forall p: Path :: Lookup(f, p) == Lookup(g, p)
    ensures f == g
  {
    forall p: Path
      ensures p in f <==> p in g
    {
      assert Lookup(f, p) == Lookup(g, p);
    }
    forall p | p in f
      ensures f[p] == g[p]
    {
      assert Lookup(f, p) == Lookup(g, p);
    }
  }

  /** Two uploads restored by boots with the same stamp: the second boot's rename
      lands on the first one's backup, and the first database is nowhere. */
  lemma SameSecondLosesDatabase(live: Bytes, first: Bytes, second: Bytes, stamp: nat)
    requires IsDatabase(first) && IsDatabase(second) && live != first && live != second
    ensures
      var f: Files := map[Live(Main) := live, Pending := first];
      var end := After(f, [Start(stamp, 4), Upload(second), Start(stamp, 4)]);
      forall p :: p in end ==> end[p] != live
  {
    var f: Files := map[Live(Main) := live, Pending := first];
    var evs := [Start(stamp, 4), Upload(second), Start(stamp, 4)];
    FullBoot(live, first, stamp, f);
    var g := AfterBoot(f, stamp, 4);
    var h := g[Pending := second];
    FullBoot(first, second, stamp, h);
    assert evs[1..] == [Upload(second), Start(stamp, 4)];
    assert evs[1..][1..] == [Start(stamp, 4)];
    assert evs[1..][1..][1..] == [];
    assert After(f, evs) == After(g, evs[1..]) == After(h, evs[1..][1..]) == AfterBoot(h, stamp, 4);
  }
}
