/** The restore at boot of internal/db/restore.go: a sequence of renames that may
    stop after any of them, by a crash or a failing rename, and is run again at
    the next boot. */
module Restore {
  import opened Common

  datatype Suffix = Main | Wal | Shm

  /** The live database and its siblings, the uploaded file, timestamped backups
      and everything else. The names are built so that no two of these clash. */
  datatype Path = Live(suffix: Suffix) | Pending | Backup(stamp: nat, suffix: Suffix) | Other(name: string)

  type Bytes = seq<char>
  type Files = map<Path, Bytes>

  const Magic: Bytes := "SQLite format 3" + [0 as char]

  const Suffixes := [Main, Wal, Shm]

  predicate IsDatabase(c: Bytes) {
    |c| >= |Magic| && c[..|Magic|] == Magic
  }

  lemma MagicIsItsName(c: Bytes)
    ensures IsDatabase(c) <==> |c| >= 16 && c[..15] == "SQLite format 3" && c[15] == 0 as char
  {
    if |c| >= 16 { assert c[..16] == c[..15] + [c[15]]; }
  }

  predicate Ready(f: Files) {
    Pending in f && IsDatabase(f[Pending])
  }

  function Renamed(f: Files, src: Path, dst: Path): Files
    requires src in f
  {
    (f - {src})[dst := f[src]]
  }

  /** The suffixes from the k-th on that have a live file to set aside. */
  function ToMove(f: Files, k: nat): seq<Suffix>
    requires k <= 3
    decreases 3 - k
  {
    if k == 3 then [] else (if Live(Suffixes[k]) in f then [Suffixes[k]] else []) + ToMove(f, k + 1)
  }

  /** Setting the given live files aside, at most `budget` of them. */
  function SetAside(f: Files, stamp: nat, suffixes: seq<Suffix>, budget: nat): Files
    requires forall s :: s in suffixes ==> Live(s) in f
    requires forall i, j :: 0 <= i < j < |suffixes| ==> suffixes[i] != suffixes[j]
    decreases |suffixes|
  {
    if suffixes == [] || budget == 0 then f
    else
      var f' := Renamed(f, Live(suffixes[0]), Backup(stamp, suffixes[0]));
      assert forall s :: s in suffixes[1..] ==> s in suffixes && s != suffixes[0];
      SetAside(f', stamp, suffixes[1..], budget - 1)
  }

  /** One boot: `budget` is how many renames it gets to make. */
  function AfterBoot(f: Files, stamp: nat, budget: nat): Files {
    if !Ready(f) then f
    else
      ToMoveIsLive(f, 0);
      var todo := ToMove(f, 0);
      var aside := SetAside(f, stamp, todo, budget);
      if budget <= |todo| then aside
      else
        SetAsideAt(f, stamp, todo, budget, Pending);
        Renamed(aside, Pending, Live(Main))
  }

  lemma {:induction false} ToMoveIsLive(f: Files, k: nat)
    requires k <= 3
    ensures forall s :: s in ToMove(f, k) <==> Live(s) in f && exists i :: k <= i < 3 && Suffixes[i] == s
    ensures forall i, j :: 0 <= i < j < |ToMove(f, k)| ==> ToMove(f, k)[i] != ToMove(f, k)[j]
    decreases 3 - k
  {
    if k < 3 {
      ToMoveIsLive(f, k + 1);
    }
  }

  predicate Movable(f: Files, suffixes: seq<Suffix>) {
    && (forall s :: s in suffixes ==> Live(s) in f)
    && (forall i, j :: 0 <= i < j < |suffixes| ==> suffixes[i] != suffixes[j])
  }

  /** The suffixes a boot with this budget gets to move. */
  function Firsts(suffixes: seq<Suffix>, budget: nat): seq<Suffix> {
    if budget < |suffixes| then suffixes[..budget] else suffixes
  }

  lemma FirstsStep(suffixes: seq<Suffix>, budget: nat, s: Suffix)
    requires suffixes != [] && budget > 0
    ensures s in Firsts(suffixes, budget) <==> s == suffixes[0] || s in Firsts(suffixes[1..], budget - 1)
  {
    assert Firsts(suffixes, budget) == [suffixes[0]] + Firsts(suffixes[1..], budget - 1);
  }

  /** The step that setting aside takes, when it takes one. */
  lemma SetAsideMore(f: Files, stamp: nat, suffixes: seq<Suffix>, budget: nat)
    requires Movable(f, suffixes) && suffixes != [] && budget > 0
    ensures var f' := Renamed(f, Live(suffixes[0]), Backup(stamp, suffixes[0]));
      && Movable(f', suffixes[1..]) && suffixes[0] !in suffixes[1..]
      && SetAside(f, stamp, suffixes, budget) == SetAside(f', stamp, suffixes[1..], budget - 1)
  {
    assert forall s :: s in suffixes[1..] ==> s in suffixes && s != suffixes[0];
  }

  lemma FirstsWithin(suffixes: seq<Suffix>, budget: nat, s: Suffix)
    ensures s in Firsts(suffixes, budget) ==> s in suffixes
  {
  }

  /** What setting files aside leaves at each path. */
  lemma {:induction false} SetAsideAt(f: Files, stamp: nat, suffixes: seq<Suffix>, budget: nat, p: Path)
    requires Movable(f, suffixes)
    ensures Lookup(SetAside(f, stamp, suffixes, budget), p) ==
              if p.Backup? && p.stamp == stamp && p.suffix in Firsts(suffixes, budget) then Lookup(f, Live(p.suffix))
              else if p.Live? && p.suffix in Firsts(suffixes, budget) then None
              else Lookup(f, p)
    decreases |suffixes|
  {
    if suffixes == [] || budget == 0 {
      assert SetAside(f, stamp, suffixes, budget) == f;
      assert Firsts(suffixes, budget) == [];
    } else {
      var first, rest := suffixes[0], suffixes[1..];
      var f' := Renamed(f, Live(first), Backup(stamp, first));
      SetAsideMore(f, stamp, suffixes, budget);
      SetAsideAt(f', stamp, rest, budget - 1, p);
      FirstsWithin(rest, budget - 1, first);
      RenamedAt(f, Live(first), Backup(stamp, first), p);
      if p.Backup? || p.Live? {
        FirstsStep(suffixes, budget, p.suffix);
        RenamedAt(f, Live(first), Backup(stamp, first), Live(p.suffix));
      }
    }
  }

  lemma RenamedAt(f: Files, src: Path, dst: Path, p: Path)
    requires src in f && src != dst
    ensures Lookup(Renamed(f, src, dst), p) == if p == dst then Lookup(f, src) else if p == src then None else Lookup(f, p)
  {
  }

  datatype Outcome = NothingPending | TooSmall | BadHeader | Stopped | Installed

  class FileSystem {
    var files: Files

    constructor (files: Files)
      ensures this.files == files
    {
      this.files := files;
    }

    method Rename(src: Path, dst: Path)
      requires src in files
      modifies this
      ensures files == Renamed(old(files), src, dst)
    {
      files := (files - {src})[dst := files[src]];
    }

    method VerifySQLiteHeader(path: Path) returns (ok: bool)
      requires path in files
      ensures ok == IsDatabase(files[path])
      ensures ok <==> |files[path]| >= 16 && files[path][..15] == "SQLite format 3" && files[path][15] == 0 as char
    {
      MagicIsItsName(files[path]);
      if |files[path]| < |Magic| {
        return false;
      }
      var buf := files[path][..|Magic|];
      for i := 0 to |Magic|
        invariant buf[..i] == Magic[..i]
      {
        if buf[i] != Magic[i] {
          return false;
        }
        assert buf[..i + 1] == buf[..i] + [buf[i]] && Magic[..i + 1] == Magic[..i] + [Magic[i]];
      }
      assert buf[..|Magic|] == buf && Magic[..|Magic|] == Magic;
      return true;
    }

    /** `budget` renames succeed; the next one does not happen. */
    method ApplyPendingRestoreIfAny(stamp: nat, budget: nat) returns (r: Outcome)
      modifies this
      ensures files == AfterBoot(old(files), stamp, budget)
      ensures r.NothingPending? <==> Pending !in old(files)
      ensures r.TooSmall? <==> Pending in old(files) && |old(files)[Pending]| < |Magic|
      ensures r.BadHeader? <==> Pending in old(files) && |old(files)[Pending]| >= |Magic| && !IsDatabase(old(files)[Pending])
      ensures r.Installed? <==> Ready(old(files)) && budget > |ToMove(old(files), 0)|
    {
      if Pending !in files {
        return NothingPending;
      }
      if |files[Pending]| < |Magic| {
        return TooSmall;
      }
      var ok := VerifySQLiteHeader(Pending);
      if !ok {
        return BadHeader;
      }
      r := Swap(stamp, budget);
    }

    /** The renames, once the upload has been accepted. */
    method Swap(stamp: nat, budget: nat) returns (r: Outcome)
      requires Ready(files)
      modifies this
      ensures files == AfterBoot(old(files), stamp, budget)
      ensures r == if budget > |ToMove(old(files), 0)| then Installed else Stopped
    {
      ghost var was := files;
      UnderWayStart(was, stamp, budget);
      var left: nat := budget;
      for k := 0 to 3
        invariant UnderWay(was, files, stamp, budget, k, left)
      {
        var s := Suffixes[k];
        assert s == Suffixes[k] && Pending in files;
        UnderWayStep(was, files, stamp, budget, k, left);
        if Live(s) !in files {
          continue;
        }
        if left == 0 {
          return Stopped;
        }
        Rename(Live(s), Backup(stamp, s));
        left := left - 1;
      }
      UnderWayEnd(was, files, stamp, budget, left);
      if left == 0 {
        return Stopped;
      }
      Rename(Pending, Live(Main));
      return Installed;
    }
  }

  lemma UnderWayStart(was: Files, stamp: nat, budget: nat)
    requires Ready(was)
    ensures UnderWay(was, was, stamp, budget, 0, budget)
  {
    ToMoveIsLive(was, 0);
  }

  /** In the loop: what is left to do from here ends where the whole would. */
  ghost predicate UnderWay(was: Files, now: Files, stamp: nat, budget: nat, k: nat, left: nat)
    requires k <= 3
  {
    && Ready(was) && Pending in now && now[Pending] == was[Pending]
    && Movable(was, ToMove(was, 0)) && Movable(now, ToMove(now, k))
    && SetAside(now, stamp, ToMove(now, k), left) == SetAside(was, stamp, ToMove(was, 0), budget)
    && left - |ToMove(now, k)| == budget - |ToMove(was, 0)|
  }

  lemma UnderWayStep(was: Files, now: Files, stamp: nat, budget: nat, k: nat, left: nat)
    requires k < 3 && UnderWay(was, now, stamp, budget, k, left)
    ensures Live(Suffixes[k]) !in now ==> UnderWay(was, now, stamp, budget, k + 1, left)
    ensures Live(Suffixes[k]) in now && left == 0 ==> now == AfterBoot(was, stamp, budget) && budget <= |ToMove(was, 0)|
    ensures Live(Suffixes[k]) in now && left > 0 ==>
              UnderWay(was, Renamed(now, Live(Suffixes[k]), Backup(stamp, Suffixes[k])), stamp, budget, k + 1, left - 1)
  {
    if Live(Suffixes[k]) !in now {
      assert ToMove(now, k) == ToMove(now, k + 1);
    } else if left > 0 {
      SetAsideStep(now, stamp, k, left);
    }
  }

  lemma UnderWayEnd(was: Files, now: Files, stamp: nat, budget: nat, left: nat)
    requires UnderWay(was, now, stamp, budget, 3, left)
    ensures left == budget - |ToMove(was, 0)|
    ensures AfterBoot(was, stamp, budget) == if left == 0 then now else Renamed(now, Pending, Live(Main))
  {
  }

  lemma SetAsideStep(f: Files, stamp: nat, k: nat, left: nat)
    requires k < 3 && Live(Suffixes[k]) in f && 0 < left
    ensures var f' := Renamed(f, Live(Suffixes[k]), Backup(stamp, Suffixes[k]));
      && Movable(f, ToMove(f, k)) && Movable(f', ToMove(f', k + 1))
      && ToMove(f, k) == [Suffixes[k]] + ToMove(f', k + 1)
      && SetAside(f, stamp, ToMove(f, k), left) == SetAside(f', stamp, ToMove(f', k + 1), left - 1)
  {
    var s := Suffixes[k];
    var f' := Renamed(f, Live(s), Backup(stamp, s));
    ToMoveIsLive(f, k);
    forall t: Suffix | t != s
      ensures Live(t) in f <==> Live(t) in f'
    {
    }
    SameToMove(f, f', k + 1, s);
    assert ToMove(f, k) == [s] + ToMove(f', k + 1);
    assert ToMove(f, k)[1..] == ToMove(f', k + 1);
    SetAsideMore(f, stamp, ToMove(f, k), left);
  }

  lemma {:induction false} SameToMove(f: Files, f': Files, k: nat, moved: Suffix)
    requires k <= 3 && forall s :: s != moved ==> (Live(s) in f <==> Live(s) in f')
    requires forall i :: k <= i < 3 ==> Suffixes[i] != moved
    ensures ToMove(f, k) == ToMove(f', k)
    decreases 3 - k
  {
    if k < 3 { SameToMove(f, f', k + 1, moved); }
  }

  // ---- What a boot does ----

  function Moved(f: Files, budget: nat): seq<Suffix> { Firsts(ToMove(f, 0), budget) }

  predicate Installs(f: Files, budget: nat) { budget > |ToMove(f, 0)| }

  lemma InSuffixes(s: Suffix)
    ensures exists i :: 0 <= i < 3 && Suffixes[i] == s
  {
    match s {
      case Main => assert Suffixes[0] == s;
      case Wal => assert Suffixes[1] == s;
      case Shm => assert Suffixes[2] == s;
    }
  }

  lemma MovedIsLive(f: Files, budget: nat, s: Suffix)
    ensures s in Moved(f, budget) ==> Live(s) in f
    ensures Live(s) in f && budget >= |ToMove(f, 0)| ==> s in Moved(f, budget)
  {
    ToMoveIsLive(f, 0);
    InSuffixes(s);
  }

  /** What one boot, stopped anywhere, leaves at each path. */
  lemma BootEffect(f: Files, stamp: nat, budget: nat, p: Path)
    requires Ready(f)
    ensures Lookup(AfterBoot(f, stamp, budget), p) ==
              match p
              case Live(s) =>
                if Installs(f, budget) then (if s == Main then Some(f[Pending]) else None)
                else if s in Moved(f, budget) then None else Lookup(f, p)
              case Pending => if Installs(f, budget) then None else Lookup(f, p)
              case Backup(t, s) => if t == stamp && s in Moved(f, budget) then Lookup(f, Live(s)) else Lookup(f, p)
              case Other(_) => Lookup(f, p)
  {
    var todo := ToMove(f, 0);
    ToMoveIsLive(f, 0);
    SetAsideAt(f, stamp, todo, budget, p);
    SetAsideAt(f, stamp, todo, budget, Pending);
    if p.Live? { MovedIsLive(f, budget, p.suffix); }
  }

  lemma {:induction false} AtMostThree(f: Files, k: nat)
    requires k <= 3
    ensures |ToMove(f, k)| <= 3 - k
    decreases 3 - k
  {
    if k < 3 { AtMostThree(f, k + 1); }
  }

  ghost predicate BackupsSurvive(f: Files, g: Files) {
    forall t, s :: Backup(t, s) in f ==> Lookup(g, Backup(t, s)) == Lookup(f, Backup(t, s))
  }

  /** A boot, stopped anywhere, keeps every earlier backup if and only if no live
      file it gets to move meets a backup of its stamp with other contents. */
  lemma BackupsSurviveIff(f: Files, stamp: nat, budget: nat)
    requires Ready(f)
    ensures BackupsSurvive(f, AfterBoot(f, stamp, budget))
       <==> forall s :: s in Moved(f, budget) && Backup(stamp, s) in f ==> Lookup(f, Live(s)) == Lookup(f, Backup(stamp, s))
  {
    var g := AfterBoot(f, stamp, budget);
    forall t, s
      ensures Lookup(g, Backup(t, s)) == if t == stamp && s in Moved(f, budget) then Lookup(f, Live(s)) else Lookup(f, Backup(t, s))
    {
      BootEffect(f, stamp, budget, Backup(t, s));
    }
  }
}
