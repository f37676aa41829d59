/** The order in which internal/db/migrator.go copies tables: Kahn's algorithm
    over the foreign keys, always taking the alphabetically first table that is
    ready, with the tables that never become ready at the end. `all` is sorted
    by name, so alphabetical order is order of position in `all`. */
module TableOrder {
  import opened Common

  datatype Edge = Edge(child: string, parent: string)

  predicate Distinct(s: seq<string>) {
    forall i, j :: 0 <= i < j < |s| ==> s[i] != s[j]
  }

  function SetOf(s: seq<string>): set<string> { set t | t in s }

  // ---- Specification ----

  /** How many foreign keys of `t` to other tables point outside `done`. */
  function Pending(edges: seq<Edge>, t: string, done: set<string>): nat {
    if edges == [] then 0
    else
      var e := edges[|edges| - 1];
      Pending(edges[..|edges| - 1], t, done) + if e.child == t && e.parent != t && e.parent !in done then 1 else 0
  }

  predicate Ready(edges: seq<Edge>, t: string, done: set<string>) {
    t !in done && Pending(edges, t, done) == 0
  }

  /** The first ready table, in the order of `all`. */
  function FirstReady(all: seq<string>, edges: seq<Edge>, done: set<string>): (pick: Option<string>)
    ensures pick.Some? ==> pick.value in all && Ready(edges, pick.value, done)
  {
    if all == [] then None
    else if Ready(edges, all[0], done) then Some(all[0])
    else FirstReady(all[1..], edges, done)
  }

  function Peel(all: seq<string>, edges: seq<Edge>, done: set<string>): seq<string>
    decreases |SetOf(all) - done|
  {
    match FirstReady(all, edges, done)
    case None => []
    case Some(t) =>
      assert SetOf(all) - done == (SetOf(all) - (done + {t})) + {t};
      [t] + Peel(all, edges, done + {t})
  }

  function Excluding(all: seq<string>, drop: set<string>): seq<string> {
    if all == [] then []
    else Excluding(all[..|all| - 1], drop) + if all[|all| - 1] in drop then [] else [all[|all| - 1]]
  }

  function Order(all: seq<string>, edges: seq<Edge>): seq<string> {
    var sorted := Peel(all, edges, {});
    sorted + Excluding(all, SetOf(sorted))
  }

  // ---- The algorithm ----

  function Get(m: map<string, int>, t: string): int { if t in m then m[t] else 0 }

  function GetAll(m: map<string, seq<string>>, t: string): seq<string> { if t in m then m[t] else [] }

  /** The children of `p`, once per foreign key, in the order of the edges. */
  function ChildrenOf(edges: seq<Edge>, p: string): seq<string> {
    if edges == [] then []
    else
      var e := edges[|edges| - 1];
      ChildrenOf(edges[..|edges| - 1], p) + if e.parent == p && e.child != p then [e.child] else []
  }

  function Count(s: seq<string>, t: string): nat {
    if s == [] then 0 else Count(s[..|s| - 1], t) + if s[|s| - 1] == t then 1 else 0
  }

  lemma {:induction false} DoneReleases(edges: seq<Edge>, t: string, done: set<string>, p: string)
    requires p !in done && t != p
    ensures Pending(edges, t, done + {p}) + Count(ChildrenOf(edges, p), t) == Pending(edges, t, done)
  {
    if edges != [] {
      var e := edges[|edges| - 1];
      var rest := ChildrenOf(edges[..|edges| - 1], p);
      DoneReleases(edges[..|edges| - 1], t, done, p);
      if e.parent == p && e.child != p {
        assert (rest + [e.child])[..|rest|] == rest;
      } else {
        assert rest + [] == rest;
      }
    }
  }

  lemma {:induction false} CountUpTo(s: seq<string>, t: string, i: nat)
    requires i <= |s|
    ensures Count(s[..i], t) <= Count(s, t)
    ensures i < |s| && s[i] == t ==> Count(s[..i], t) < Count(s, t)
    decreases |s|
  {
    if i < |s| {
      CountUpTo(s[..|s| - 1], t, i);
      assert s[..|s| - 1][..i] == s[..i];
    } else {
      assert s[..i] == s;
    }
  }

  lemma {:induction false} FirstReadyAt(all: seq<string>, edges: seq<Edge>, done: set<string>, i: nat)
    requires i <= |all| && forall j :: 0 <= j < i ==> !Ready(edges, all[j], done)
    ensures i < |all| && Ready(edges, all[i], done) ==> FirstReady(all, edges, done) == Some(all[i])
    ensures i == |all| ==> FirstReady(all, edges, done) == None
  {
    if i > 0 { FirstReadyAt(all[1..], edges, done, i - 1); }
  }

  ghost predicate Counted(indeg: map<string, int>, children: map<string, seq<string>>, edges: seq<Edge>) {
    && (forall t :: Get(indeg, t) == Pending(edges, t, {}))
    && (forall p :: GetAll(children, p) == ChildrenOf(edges, p))
  }

  lemma CountEdge(indeg: map<string, int>, children: map<string, seq<string>>, edges: seq<Edge>, e: Edge)
    requires Counted(indeg, children, edges)
    ensures if e.child == e.parent then Counted(indeg, children, edges + [e])
            else Counted(indeg[e.child := Get(indeg, e.child) + 1], children[e.parent := GetAll(children, e.parent) + [e.child]], edges + [e])
  {
    var more := edges + [e];
    assert more[..|more| - 1] == edges && more[|more| - 1] == e;
    var indeg', children' := indeg[e.child := Get(indeg, e.child) + 1], children[e.parent := GetAll(children, e.parent) + [e.child]];
    forall t
      ensures Pending(more, t, {}) == Get(if e.child == e.parent then indeg else indeg', t)
    {
    }
    forall p
      ensures ChildrenOf(more, p) == GetAll(if e.child == e.parent then children else children', p)
    {
      assert ChildrenOf(edges, p) + [] == ChildrenOf(edges, p);
    }
  }

  /** The edge loop: in-degrees and child lists, self references skipped. */
  method Graph(all: seq<string>, edges: seq<Edge>) returns (indeg: map<string, int>, children: map<string, seq<string>>)
    ensures forall t :: Get(indeg, t) == Pending(edges, t, {})
    ensures forall p :: GetAll(children, p) == ChildrenOf(edges, p)
  {
    indeg, children := map[], map[];
    for i := 0 to |all|
      invariant forall t :: Get(indeg, t) == 0
    {
      ghost var was := indeg;
      indeg := indeg[all[i] := 0];
      assert forall t :: Get(indeg, t) == if t == all[i] then 0 else Get(was, t);
    }
    assert Counted(indeg, children, []);
    for i := 0 to |edges|
      invariant Counted(indeg, children, edges[..i])
    {
      var e := edges[i];
      CountEdge(indeg, children, edges[..i], e);
      assert edges[..i + 1] == edges[..i] + [e];
      if e.child == e.parent {
        continue;
      }
      children := children[e.parent := GetAll(children, e.parent) + [e.child]];
      indeg := indeg[e.child := Get(indeg, e.child) + 1];
    }
    assert edges[..|edges|] == edges;
  }

  /** What the in-degree map says while `done` has been emitted. */
  ghost predicate Tracks(indeg: map<string, int>, all: seq<string>, edges: seq<Edge>, done: set<string>) {
    forall t :: t in all ==> Get(indeg, t) == if t in done then -1 else Pending(edges, t, done)
  }

  /** In the loop below: the emitted tables are marked, and `i` of the children
      have been released. */
  ghost predicate Releasing(indeg: map<string, int>, all: seq<string>, edges: seq<Edge>, done: set<string>, pick: string, kids: seq<string>, i: nat)
    requires i <= |kids|
  {
    forall t :: t in all ==> Get(indeg, t) == if t in done || t == pick then -1 else Pending(edges, t, done) - Count(kids[..i], t)
  }

  lemma CountNext(kids: seq<string>, i: nat, t: string)
    requires i < |kids|
    ensures Count(kids[..i + 1], t) == Count(kids[..i], t) + if kids[i] == t then 1 else 0
  {
    assert kids[..i + 1][..i] == kids[..i];
  }

  /** A child not yet emitted is owed one release for each mention still to come. */
  lemma StillWaits(edges: seq<Edge>, done: set<string>, pick: string, kids: seq<string>, i: nat)
    requires i < |kids| && kids == ChildrenOf(edges, pick) && pick !in done && kids[i] != pick
    ensures Pending(edges, kids[i], done) > Count(kids[..i], kids[i])
  {
    CountUpTo(kids, kids[i], i);
    DoneReleases(edges, kids[i], done, pick);
  }

  lemma ReleaseOne(indeg: map<string, int>, all: seq<string>, edges: seq<Edge>, done: set<string>, pick: string, kids: seq<string>, i: nat)
    requires i < |kids| && kids == ChildrenOf(edges, pick) && pick !in done && Releasing(indeg, all, edges, done, pick, kids, i)
    ensures var c := kids[i];
      Releasing(if Get(indeg, c) > 0 then indeg[c := Get(indeg, c) - 1] else indeg, all, edges, done, pick, kids, i + 1)
  {
    var c := kids[i];
    var indeg' := if Get(indeg, c) > 0 then indeg[c := Get(indeg, c) - 1] else indeg;
    if c != pick { StillWaits(edges, done, pick, kids, i); }
    forall t | t in all
      ensures Get(indeg', t) == if t in done || t == pick then -1 else Pending(edges, t, done) - Count(kids[..i + 1], t)
    {
      CountNext(kids, i, t);
      assert Get(indeg, t) == if t in done || t == pick then -1 else Pending(edges, t, done) - Count(kids[..i], t);
      assert Get(indeg', t) == if t == c && Get(indeg, c) > 0 then Get(indeg, c) - 1 else Get(indeg, t);
    }
  }

  lemma ReleasedAll(indeg: map<string, int>, all: seq<string>, edges: seq<Edge>, done: set<string>, pick: string, kids: seq<string>)
    requires kids == ChildrenOf(edges, pick) && pick !in done && Releasing(indeg, all, edges, done, pick, kids, |kids|)
    ensures Tracks(indeg, all, edges, done + {pick})
  {
    assert kids[..|kids|] == kids;
    forall t | t in all
      ensures Get(indeg, t) == if t in done + {pick} then -1 else Pending(edges, t, done + {pick})
    {
      if t != pick { DoneReleases(edges, t, done, pick); }
    }
  }

  method Release(indeg: map<string, int>, kids: seq<string>, ghost all: seq<string>, ghost edges: seq<Edge>, ghost done: set<string>, pick: string)
    returns (indeg': map<string, int>)
    requires Tracks(indeg, all, edges, done) && pick in all && Ready(edges, pick, done)
    requires kids == ChildrenOf(edges, pick)
    ensures Tracks(indeg', all, edges, done + {pick})
  {
    indeg' := indeg[pick := -1];
    for i := 0 to |kids|
      invariant Releasing(indeg', all, edges, done, pick, kids, i)
    {
      ReleaseOne(indeg', all, edges, done, pick, kids, i);
      var c := kids[i];
      if Get(indeg', c) > 0 {
        indeg' := indeg'[c := Get(indeg', c) - 1];
      }
    }
    ReleasedAll(indeg', all, edges, done, pick, kids);
  }

  /** The scan for the next table; the empty name says there is none. */
  method Pick(all: seq<string>, indeg: map<string, int>, ghost edges: seq<Edge>, ghost done: set<string>) returns (pick: string)
    requires "" !in all && Tracks(indeg, all, edges, done)
    ensures FirstReady(all, edges, done) == if pick == "" then None else Some(pick)
  {
    for i := 0 to |all|
      invariant forall j :: 0 <= j < i ==> !Ready(edges, all[j], done)
    {
      if Get(indeg, all[i]) == 0 {
        FirstReadyAt(all, edges, done, i);
        return all[i];
      }
    }
    FirstReadyAt(all, edges, done, |all|);
    return "";
  }

  method Tail(all: seq<string>, indeg: map<string, int>, ghost edges: seq<Edge>, ghost done: set<string>) returns (tail: seq<string>)
    requires Tracks(indeg, all, edges, done) && FirstReady(all, edges, done) == None
    ensures tail == Excluding(all, done)
  {
    tail := [];
    for i := 0 to |all|
      invariant tail == Excluding(all[..i], done)
    {
      assert all[..i + 1][..i] == all[..i];
      NoneReady(all, edges, done, i);
      if Get(indeg, all[i]) > 0 {
        tail := tail + [all[i]];
      }
    }
    assert all[..|all|] == all;
  }

  lemma {:induction false} NoneReady(all: seq<string>, edges: seq<Edge>, done: set<string>, i: nat)
    requires FirstReady(all, edges, done) == None && i < |all|
    ensures !Ready(edges, all[i], done)
  {
    if i > 0 { NoneReady(all[1..], edges, done, i - 1); }
  }

  lemma PeelStep(all: seq<string>, edges: seq<Edge>, done: set<string>, ordered: seq<string>, pick: string)
    requires FirstReady(all, edges, done) == Some(pick)
    ensures (ordered + [pick]) + Peel(all, edges, done + {pick}) == ordered + Peel(all, edges, done)
    ensures |SetOf(all) - (done + {pick})| < |SetOf(all) - done|
  {
    assert SetOf(all) - done == (SetOf(all) - (done + {pick})) + {pick};
    assert Peel(all, edges, done) == [pick] + Peel(all, edges, done + {pick});
  }

  lemma SetOfAppend(s: seq<string>, t: string)
    ensures SetOf(s + [t]) == SetOf(s) + {t}
  {
  }

  /** `ordered` is a prefix of the peeling, with `indeg` up to date. */
  ghost predicate Peeling(all: seq<string>, edges: seq<Edge>, indeg: map<string, int>, ordered: seq<string>) {
    && Tracks(indeg, all, edges, SetOf(ordered))
    && ordered + Peel(all, edges, SetOf(ordered)) == Peel(all, edges, {})
  }

  lemma PeelingDone(all: seq<string>, edges: seq<Edge>, indeg: map<string, int>, ordered: seq<string>)
    requires Peeling(all, edges, indeg, ordered) && FirstReady(all, edges, SetOf(ordered)) == None
    ensures ordered == Peel(all, edges, {})
  {
  }

  lemma PeelingStarts(all: seq<string>, edges: seq<Edge>, indeg: map<string, int>)
    requires forall t :: Get(indeg, t) == Pending(edges, t, {})
    ensures Peeling(all, edges, indeg, [])
  {
    assert SetOf([]) == {};
  }

  method EnumerateTargetTables(all: seq<string>, edges: seq<Edge>) returns (ordered: seq<string>)
    requires Distinct(all) && "" !in all
    ensures ordered == Order(all, edges)
  {
    var indeg, children := Graph(all, edges);
    ordered := [];
    PeelingStarts(all, edges, indeg);
    while true
      invariant Peeling(all, edges, indeg, ordered)
      decreases |SetOf(all) - SetOf(ordered)|
    {
      var pick := Pick(all, indeg, edges, SetOf(ordered));
      if pick == "" {
        break;
      }
      PeelStep(all, edges, SetOf(ordered), ordered, pick);
      SetOfAppend(ordered, pick);
      indeg := Release(indeg, GetAll(children, pick), all, edges, SetOf(ordered), pick);
      ordered := ordered + [pick];
    }
    PeelingDone(all, edges, indeg, ordered);
    var tail := Tail(all, indeg, edges, SetOf(ordered));
    ordered := ordered + tail;
  }
}
