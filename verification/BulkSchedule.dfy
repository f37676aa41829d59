/** The programme guide of internal/db/epg_repository.go: the schedule of many
    channels, read in chunks, against the schedule of one channel. Channel ids
    and programme ids are integers, as only their order matters. */
module BulkSchedule {
  import opened Ordering

  type Channel = int

  datatype Program = Program(id: int, channel: Channel, start: int, end: int)

  type Guide = map<Channel, seq<Program>>

  const ChunkSize := 500

  // ---- Queries ----

  function Airing(channels: set<Channel>, from: int, to: int): Program -> bool {
    (p: Program) => p.end > from && p.start < to && p.channel in channels
  }

  function OfChannel(ch: Channel): Program -> bool { (p: Program) => p.channel == ch }

  /** ORDER BY start_time. */
  function ByStart(): (Program, Program) -> bool { (a: Program, b: Program) => a.start <= b.start }

  /** ORDER BY channel_id, start_time. */
  function ByChannel(): (Program, Program) -> bool {
    (a: Program, b: Program) => a.channel < b.channel || (a.channel == b.channel && a.start <= b.start)
  }

  function ScheduleOf(programs: seq<Program>, ch: Channel, from: int, to: int): seq<Program> {
    Sort(ByStart(), Keep(Airing({ch}, from, to), programs))
  }

  function SetOf(ids: seq<Channel>): set<Channel> { set ch | ch in ids }

  function ChunkRows(programs: seq<Program>, ids: seq<Channel>, from: int, to: int): seq<Program> {
    Sort(ByChannel(), Keep(Airing(SetOf(ids), from, to), programs))
  }

  /** Every requested channel that has programmes, with its own schedule. */
  function GuideOf(programs: seq<Program>, ids: set<Channel>, from: int, to: int): Guide {
    map ch | ch in ids && ScheduleOf(programs, ch, from, to) != [] :: ScheduleOf(programs, ch, from, to)
  }

  /** First occurrences, in order. */
  function Dedupe(ids: seq<Channel>): seq<Channel> {
    if ids == [] then []
    else
      var before, last := ids[..|ids| - 1], ids[|ids| - 1];
      Dedupe(before) + if last in before then [] else [last]
  }

  function Chunks(ids: seq<Channel>): seq<seq<Channel>>
    decreases |ids|
  {
    if ids == [] then []
    else if |ids| <= ChunkSize then [ids]
    else [ids[..ChunkSize]] + Chunks(ids[ChunkSize..])
  }

  function At(g: Guide, ch: Channel): seq<Program> { if ch in g then g[ch] else [] }

  /** Appending rows to the lists of their channels, one by one. */
  function Appended(g: Guide, rows: seq<Program>): Guide {
    if rows == [] then g
    else
      var before, p := Appended(g, rows[..|rows| - 1]), rows[|rows| - 1];
      before[p.channel := At(before, p.channel) + [p]]
  }

  // ---- The repository ----

  class EpgRepository {
    var programs: seq<Program>

    constructor (programs: seq<Program>)
      ensures this.programs == programs
    {
      this.programs := programs;
    }

    method Schedule(ch: Channel, from: int, to: int) returns (result: seq<Program>)
      ensures result == ScheduleOf(programs, ch, from, to)
    {
      var rows := Sort(ByStart(), Keep(Airing({ch}, from, to), programs));
      result := [];
      for i := 0 to |rows|
        invariant result == rows[..i]
      {
        result := result + [rows[i]];
      }
      assert rows[..|rows|] == rows;
    }

    /** `queries` lists the ids each statement was given. */
    method BulkSchedule(channelIds: seq<Channel>, from: int, to: int) returns (result: Guide, ghost queries: seq<seq<Channel>>)
      ensures result == GuideOf(programs, SetOf(channelIds), from, to)
      ensures queries == Chunks(Dedupe(channelIds))
    {
      result, queries := map[], [];
      if |channelIds| == 0 {
        return;
      }
      var ids := DedupeStrings(channelIds);
      DedupeKeepsSet(channelIds);
      var start := 0;
      while start < |ids|
        invariant 0 <= start <= |ids|
        invariant result == GuideOf(programs, SetOf(ids[..start]), from, to)
        invariant queries + Chunks(ids[start..]) == Chunks(ids)
      {
        var end := start + ChunkSize;
        if end > |ids| {
          end := |ids|;
        }
        ChunkTurn(programs, channelIds, start, end, from, to);
        result := BulkScheduleChunk(ids[start..end], from, to, result);
        QueriesTurn(ids, queries, start, end);
        queries := queries + [ids[start..end]];
        start := end;
      }
      assert ids[..|ids|] == ids;
    }

    method BulkScheduleChunk(ids: seq<Channel>, from: int, to: int, guide: Guide) returns (result: Guide)
      ensures result == Appended(guide, ChunkRows(programs, ids, from, to))
    {
      var rows := Sort(ByChannel(), Keep(Airing(SetOf(ids), from, to), programs));
      result := guide;
      for i := 0 to |rows|
        invariant result == Appended(guide, rows[..i])
      {
        assert rows[..i + 1][..i] == rows[..i];
        var p := rows[i];
        result := result[p.channel := At(result, p.channel) + [p]];
      }
      assert rows[..|rows|] == rows;
    }

    static method DedupeStrings(ids: seq<Channel>) returns (out: seq<Channel>)
      ensures out == Dedupe(ids)
    {
      if |ids| < 2 {
        if |ids| == 1 { assert ids == [ids[0]] && Dedupe(ids[..0]) == []; }
        return ids;
      }
      var seen: set<Channel> := {};
      out := [];
      for i := 0 to |ids|
        invariant seen == SetOf(ids[..i]) && out == Dedupe(ids[..i])
      {
        assert ids[..i + 1] == ids[..i] + [ids[i]];
        if ids[i] in seen {
          continue;
        }
        seen := seen + {ids[i]};
        out := out + [ids[i]];
      }
      assert ids[..|ids|] == ids;
    }
  }

  // ---- Chunks and duplicates ----

  predicate Distinct(s: seq<Channel>) {
    forall i, j :: 0 <= i < j < |s| ==> s[i] != s[j]
  }

  lemma {:induction false} DedupeKeepsSet(ids: seq<Channel>)
    ensures Distinct(Dedupe(ids)) && SetOf(Dedupe(ids)) == SetOf(ids)
  {
    if ids != [] {
      var before, last := ids[..|ids| - 1], ids[|ids| - 1];
      DedupeKeepsSet(before);
      assert ids == before + [last];
      var kept := Dedupe(before);
      assert forall ch :: ch in kept <==> ch in SetOf(kept);
      forall i | 0 <= i < |kept| ensures kept[i] in before { assert kept[i] in SetOf(kept); }
      assert Dedupe(ids) == kept + if last in before then [] else [last];
    }
  }

  function Flatten(chunks: seq<seq<Channel>>): seq<Channel> {
    if chunks == [] then [] else chunks[0] + Flatten(chunks[1..])
  }

  /** The chunks cut the list into consecutive pieces of 1 to 500 ids. */
  lemma {:induction false} ChunksPartition(ids: seq<Channel>)
    ensures Flatten(Chunks(ids)) == ids
    ensures forall i :: 0 <= i < |Chunks(ids)| ==> 1 <= |Chunks(ids)[i]| <= ChunkSize
    decreases |ids|
  {
    if ids != [] {
      if |ids| <= ChunkSize {
        assert Chunks(ids)[1..] == [];
      } else {
        var rest := ids[ChunkSize..];
        ChunksPartition(rest);
        assert ([ids[..ChunkSize]] + Chunks(rest))[1..] == Chunks(rest);
        assert ids[..ChunkSize] + rest == ids;
      }
    }
  }

  lemma ChunksStep(ids: seq<Channel>, start: nat, end: nat)
    requires start < |ids| && end == if start + ChunkSize > |ids| then |ids| else start + ChunkSize
    ensures Chunks(ids[start..]) == [ids[start..end]] + Chunks(ids[end..])
  {
    var rest := ids[start..];
    if |rest| <= ChunkSize {
      assert end == |ids| && ids[start..end] == rest && ids[end..] == [];
    } else {
      assert rest[..ChunkSize] == ids[start..end] && rest[ChunkSize..] == ids[end..];
    }
  }

  lemma QueriesTurn(ids: seq<Channel>, queries: seq<seq<Channel>>, start: nat, end: nat)
    requires start < |ids| && end == if start + ChunkSize > |ids| then |ids| else start + ChunkSize
    ensures queries + Chunks(ids[start..]) == queries + [ids[start..end]] + Chunks(ids[end..])
  {
    ChunksStep(ids, start, end);
  }

  // ---- A chunk equals the channels one by one ----

  lemma OrdersAreTotal()
    ensures TotalPreorder(ByStart()) && TotalPreorder(ByChannel())
  {
  }

  lemma Push(a: seq<Program>, kept: seq<Program>, p: Program)
    ensures a + kept + [p] == a + (kept + [p]) && kept + [] == kept && kept + [p] != []
  {
  }

  lemma AppendedStep(g: Guide, before: seq<Program>, p: Program, ch: Channel)
    ensures At(Appended(g, before + [p]), ch) == At(Appended(g, before), ch) + (if p.channel == ch then [p] else [])
    ensures ch in Appended(g, before + [p]) <==> ch in Appended(g, before) || p.channel == ch
  {
    var rows := before + [p];
    assert rows[..|rows| - 1] == before && rows[|rows| - 1] == p;
    Push([], At(Appended(g, before), ch), p);
  }

  lemma {:induction false} AppendedAt(g: Guide, rows: seq<Program>, ch: Channel)
    ensures At(Appended(g, rows), ch) == At(g, ch) + Keep(OfChannel(ch), rows)
    ensures ch in Appended(g, rows) <==> ch in g || Keep(OfChannel(ch), rows) != []
  {
    if rows != [] {
      var before, p := rows[..|rows| - 1], rows[|rows| - 1];
      assert rows == before + [p];
      AppendedAt(g, before, ch);
      AppendedStep(g, before, p, ch);
      KeepLast(OfChannel(ch), before, p);
      Push(At(g, ch), Keep(OfChannel(ch), before), p);
    } else {
      assert At(g, ch) + [] == At(g, ch);
    }
  }

  lemma KeepUnfolds<T>(p: T -> bool, x: T, s: seq<T>)
    ensures Keep(p, [x] + s) == (if p(x) then [x] else []) + Keep(p, s)
  {
    assert ([x] + s)[1..] == s;
  }

  lemma {:induction false} KeepLast<T>(p: T -> bool, s: seq<T>, x: T)
    ensures Keep(p, s + [x]) == Keep(p, s) + if p(x) then [x] else []
  {
    if s == [] {
      assert s + [x] == [x] + [];
      KeepUnfolds(p, x, []);
    } else {
      assert s + [x] == [s[0]] + (s[1..] + [x]) && s == [s[0]] + s[1..];
      KeepUnfolds(p, s[0], s[1..] + [x]);
      KeepUnfolds(p, s[0], s[1..]);
      KeepLast(p, s[1..], x);
    }
  }

  /** The rows a chunk query returns for a channel are that channel's schedule. */
  lemma ChunkRowsOfChannel(programs: seq<Program>, ids: seq<Channel>, from: int, to: int, ch: Channel)
    ensures Keep(OfChannel(ch), ChunkRows(programs, ids, from, to))
         == if ch in ids then ScheduleOf(programs, ch, from, to) else []
  {
    OrdersAreTotal();
    var wide := Airing(SetOf(ids), from, to);
    var rows := Keep(wide, programs);
    KeepSort(ByChannel(), OfChannel(ch), rows);
    if ch in ids {
      KeepKeep(wide, OfChannel(ch), Airing({ch}, from, to), programs);
      var mine := Keep(Airing({ch}, from, to), programs);
      KeepMembers(Airing({ch}, from, to), programs);
      SortAgrees(ByChannel(), ByStart(), mine);
    } else {
      KeepMembers(wide, programs);
      KeepMembers(OfChannel(ch), rows);
      NoMembers(Keep(OfChannel(ch), rows));
    }
  }

  lemma NoMembers<T>(s: seq<T>)
    ensures s == [] || exists x :: x in s
  {
    if s != [] { assert s[0] in s; }
  }

  lemma SameGuide(a: Guide, b: Guide)
    requires forall ch :: (ch in a <==> ch in b) && At(a, ch) == At(b, ch)
    ensures a == b
  {
    forall ch ensures (ch in a <==> ch in b) && (ch in a ==> a[ch] == b[ch]) {
      assert At(a, ch) == At(b, ch);
    }
    assert a.Keys == b.Keys;
  }

  lemma GuideAt(programs: seq<Program>, ids: set<Channel>, from: int, to: int, ch: Channel)
    ensures var g := GuideOf(programs, ids, from, to);
      && At(g, ch) == (if ch in ids then ScheduleOf(programs, ch, from, to) else [])
      && (ch in g <==> ch in ids && ScheduleOf(programs, ch, from, to) != [])
  {
  }

  lemma GuideGrowsAt(programs: seq<Program>, done: seq<Channel>, ids: seq<Channel>, from: int, to: int, ch: Channel)
    requires SetOf(done) !! SetOf(ids)
    ensures
      var grown := Appended(GuideOf(programs, SetOf(done), from, to), ChunkRows(programs, ids, from, to));
      var goal := GuideOf(programs, SetOf(done + ids), from, to);
      (ch in grown <==> ch in goal) && At(grown, ch) == At(goal, ch)
  {
    var mine := ScheduleOf(programs, ch, from, to);
    AppendedAt(GuideOf(programs, SetOf(done), from, to), ChunkRows(programs, ids, from, to), ch);
    ChunkRowsOfChannel(programs, ids, from, to, ch);
    GuideAt(programs, SetOf(done), from, to, ch);
    GuideAt(programs, SetOf(done + ids), from, to, ch);
    assert ch in SetOf(done) <==> ch in done;
    assert ch in SetOf(ids) <==> ch in ids;
    assert ch in SetOf(done + ids) <==> ch in done || ch in ids;
    assert [] + mine == mine && mine + [] == mine;
  }

  lemma GuideGrows(programs: seq<Program>, done: seq<Channel>, ids: seq<Channel>, from: int, to: int)
    requires SetOf(done) !! SetOf(ids)
    ensures Appended(GuideOf(programs, SetOf(done), from, to), ChunkRows(programs, ids, from, to))
         == GuideOf(programs, SetOf(done + ids), from, to)
  {
    var grown := Appended(GuideOf(programs, SetOf(done), from, to), ChunkRows(programs, ids, from, to));
    var goal := GuideOf(programs, SetOf(done + ids), from, to);
    forall ch
      ensures (ch in grown <==> ch in goal) && At(grown, ch) == At(goal, ch)
    {
      GuideGrowsAt(programs, done, ids, from, to, ch);
    }
    SameGuide(grown, goal);
  }

  /** One turn of the chunk loop. */
  lemma ChunkTurn(programs: seq<Program>, channelIds: seq<Channel>, start: nat, end: nat, from: int, to: int)
    requires start <= end <= |Dedupe(channelIds)|
    ensures var ids := Dedupe(channelIds);
      Appended(GuideOf(programs, SetOf(ids[..start]), from, to), ChunkRows(programs, ids[start..end], from, to))
        == GuideOf(programs, SetOf(ids[..end]), from, to)
  {
    var ids := Dedupe(channelIds);
    ChunkIsDisjoint(channelIds, start, end);
    GuideGrows(programs, ids[..start], ids[start..end], from, to);
    assert ids[..start] + ids[start..end] == ids[..end];
  }

  lemma ChunkIsDisjoint(channelIds: seq<Channel>, start: nat, end: nat)
    requires start <= end <= |Dedupe(channelIds)|
    ensures SetOf(Dedupe(channelIds)[..start]) !! SetOf(Dedupe(channelIds)[start..end])
  {
    var ids := Dedupe(channelIds);
    DedupeKeepsSet(channelIds);
    forall i, j | 0 <= i < start && 0 <= j < end - start ensures ids[..start][i] != ids[start..end][j] {
      assert ids[i] != ids[start + j];
    }
  }

  // ---- What the caller gets ----

  predicate OnAir(p: Program, at: int) { p.start <= at < p.end }

  /** Some instant of the range has the programme on air. */
  ghost predicate AirsWithin(p: Program, from: int, to: int) {
    exists at :: OnAir(p, at) && from <= at < to
  }

  /** The schedule of a channel has its programmes that are on air at some
      instant of the range, each as often as it is stored, by their start. */
  lemma ScheduleIsWhatAirs(programs: seq<Program>, ch: Channel, from: int, to: int)
    requires from < to
    ensures var s := ScheduleOf(programs, ch, from, to);
      && (forall p: Program :: p.start < p.end ==> (p in s <==> p in programs && p.channel == ch && AirsWithin(p, from, to)))
      && (forall i, j :: 0 <= i < j < |s| ==> s[i].start <= s[j].start)
  {
    var airing := Airing({ch}, from, to);
    var kept := Keep(airing, programs);
    var s := ScheduleOf(programs, ch, from, to);
    OrdersAreTotal();
    SortSorts(ByStart(), kept);
    KeepMembers(airing, programs);
    forall p: Program | p.start < p.end ensures p in s <==> p in programs && p.channel == ch && AirsWithin(p, from, to) {
      assert p in s <==> p in kept by { assert p in multiset(kept) <==> p in kept; assert p in multiset(s) <==> p in s; }
      if p.end > from && p.start < to { assert OnAir(p, if p.start < from then from else p.start); }
    }
    forall i, j | 0 <= i < j < |s| ensures s[i].start <= s[j].start { assert ByStart()(s[i], s[j]); }
  }

  /** The bulk guide holds, for each requested channel with programmes, exactly
      the rows that Schedule returns for it, and no other channel. */
  lemma GuideIsPerChannel(programs: seq<Program>, channelIds: seq<Channel>, from: int, to: int, ch: Channel)
    ensures var g := GuideOf(programs, SetOf(channelIds), from, to);
      && (ch in g <==> ch in channelIds && exists p :: p in programs && p.channel == ch && p.end > from && p.start < to)
      && (ch in g ==> g[ch] == ScheduleOf(programs, ch, from, to) && Sorted(ByStart(), g[ch])
                      && multiset(g[ch]) == multiset(Keep(Airing({ch}, from, to), programs)))
  {
    OrdersAreTotal();
    var mine := Keep(Airing({ch}, from, to), programs);
    SortSorts(ByStart(), mine);
    KeepMembers(Airing({ch}, from, to), programs);
    NoMembers(mine);
    var s := ScheduleOf(programs, ch, from, to);
    assert |s| == |multiset(s)| && |mine| == |multiset(mine)|;
  }
}
