/** What the copy order guarantees, for every set of tables and foreign keys. */
module TableOrderProofs {
  import opened Common
  import opened TableOrder

  // ---- A permutation ----

  lemma {:induction false} PeelIsFresh(all: seq<string>, edges: seq<Edge>, done: set<string>)
    ensures var p := Peel(all, edges, done);
      Distinct(p) && forall t :: t in p ==> t in all && t !in done
    decreases |SetOf(all) - done|
  {
    match FirstReady(all, edges, done) {
      case None =>
      case Some(t) =>
        PeelStep(all, edges, done, [], t);
        PeelIsFresh(all, edges, done + {t});
    }
  }

  lemma {:induction false} ExcludingKeeps(all: seq<string>, drop: set<string>)
    requires Distinct(all)
    ensures Distinct(Excluding(all, drop))
    ensures forall t :: t in Excluding(all, drop) <==> t in all && t !in drop
  {
    if all != [] {
      var before := all[..|all| - 1];
      ExcludingKeeps(before, drop);
      assert all == before + [all[|all| - 1]];
    }
  }

  /** Every table is copied exactly once. */
  lemma OrderIsPermutation(all: seq<string>, edges: seq<Edge>)
    requires Distinct(all)
    ensures Distinct(Order(all, edges)) && SetOf(Order(all, edges)) == SetOf(all)
    ensures multiset(Order(all, edges)) == multiset(all)
  {
    var sorted := Peel(all, edges, {});
    PeelIsFresh(all, edges, {});
    ExcludingKeeps(all, SetOf(sorted));
    var tail := Excluding(all, SetOf(sorted));
    assert forall i :: 0 <= i < |sorted| ==> sorted[i] in sorted;
    assert forall i :: 0 <= i < |tail| ==> tail[i] in tail;
    assert Distinct(sorted + tail);
    SameElements(Order(all, edges), all);
  }

  lemma SameElements(a: seq<string>, b: seq<string>)
    requires Distinct(a) && Distinct(b) && forall t :: t in a <==> t in b
    ensures multiset(a) == multiset(b)
  {
    forall t ensures multiset(a)[t] == multiset(b)[t] {
      OnceEach(a, t);
      OnceEach(b, t);
    }
  }

  lemma {:induction false} OnceEach(s: seq<string>, t: string)
    requires Distinct(s)
    ensures multiset(s)[t] == if t in s then 1 else 0
  {
    if s != [] {
      var before := s[..|s| - 1];
      assert s == before + [s[|s| - 1]];
      OnceEach(before, t);
    }
  }

  // ---- Parents first ----

  /** A foreign key from `child` to a different table `parent`. */
  predicate Refers(edges: seq<Edge>, child: string, parent: string) {
    child != parent && Edge(child, parent) in edges
  }

  lemma {:induction false} PendingIsZero(edges: seq<Edge>, t: string, done: set<string>)
    ensures Pending(edges, t, done) == 0 <==> forall p :: Refers(edges, t, p) ==> p in done
  {
    if edges != [] {
      var before := edges[..|edges| - 1];
      assert edges == before + [edges[|edges| - 1]];
      PendingIsZero(before, t, done);
      var e := edges[|edges| - 1];
      if e.child == t && e.parent != t { assert Refers(edges, t, e.parent); }
      forall p | Refers(before, t, p) ensures Refers(edges, t, p) {}
    }
  }

  lemma PeelFirst(all: seq<string>, edges: seq<Edge>, done: set<string>)
    requires Peel(all, edges, done) != []
    ensures var t := FirstReady(all, edges, done);
      t.Some? && Peel(all, edges, done) == [t.value] + Peel(all, edges, done + {t.value})
  {
    var t := FirstReady(all, edges, done).value;
    PeelStep(all, edges, done, [], t);
  }

  lemma {:induction false} PeelAt(all: seq<string>, edges: seq<Edge>, done: set<string>, k: nat)
    requires k < |Peel(all, edges, done)|
    ensures var p := Peel(all, edges, done); FirstReady(all, edges, done + SetOf(p[..k])) == Some(p[k])
    decreases k
  {
    var t := FirstReady(all, edges, done).value;
    PeelFirst(all, edges, done);
    var p, rest := Peel(all, edges, done), Peel(all, edges, done + {t});
    if k == 0 {
      assert done + SetOf(p[..0]) == done;
    } else {
      PeelAt(all, edges, done + {t}, k - 1);
      assert p[..k] == [t] + rest[..k - 1];
      SetOfPush(t, rest[..k - 1]);
      assert done + {t} + SetOf(rest[..k - 1]) == done + ({t} + SetOf(rest[..k - 1]));
    }
  }

  lemma PeelParentsFirst(all: seq<string>, edges: seq<Edge>, k: nat, parent: string)
    requires k < |Peel(all, edges, {})| && Refers(edges, Peel(all, edges, {})[k], parent)
    ensures parent in Peel(all, edges, {})[..k]
  {
    var p := Peel(all, edges, {});
    PeelAt(all, edges, {}, k);
    assert {} + SetOf(p[..k]) == SetOf(p[..k]);
    PendingIsZero(edges, p[k], SetOf(p[..k]));
  }

  lemma {:induction false} PeelIsExhausted(all: seq<string>, edges: seq<Edge>, done: set<string>, end: set<string>)
    requires end == done + SetOf(Peel(all, edges, done))
    ensures FirstReady(all, edges, end) == None
    decreases |SetOf(all) - done|
  {
    match FirstReady(all, edges, done) {
      case None =>
        assert end == done;
      case Some(t) =>
        PeelStep(all, edges, done, [], t);
        var rest := Peel(all, edges, done + {t});
        SetOfPush(t, rest);
        assert Peel(all, edges, done) == [t] + rest;
        PeelIsExhausted(all, edges, done + {t}, end);
    }
  }

  lemma SetOfPush(t: string, s: seq<string>)
    ensures SetOf([t] + s) == {t} + SetOf(s)
  {
  }

  /** A table in the tail still waits for some parent outside the sorted part. */
  lemma TailWaits(all: seq<string>, edges: seq<Edge>, t: string) returns (parent: string)
    requires t in all && t !in Peel(all, edges, {})
    ensures Refers(edges, t, parent) && parent !in Peel(all, edges, {})
  {
    var p := Peel(all, edges, {});
    PeelIsExhausted(all, edges, {}, SetOf(p));
    var i :| 0 <= i < |all| && all[i] == t;
    NoneReady(all, edges, SetOf(p), i);
    PendingIsZero(edges, t, SetOf(p));
    parent :| Refers(edges, t, parent) && parent !in SetOf(p);
  }

  // ---- Who is in the tail: exactly what is downstream of a cycle ----

  /** A chain of foreign keys, each table referring to the one before it. */
  predicate Chain(edges: seq<Edge>, walk: seq<string>) {
    walk != [] && forall i :: 0 <= i < |walk| - 1 ==> Refers(edges, walk[i + 1], walk[i])
  }

  ghost predicate OnCycle(edges: seq<Edge>, t: string) {
    exists walk :: Chain(edges, walk) && |walk| >= 2 && walk[0] == t && walk[|walk| - 1] == t
  }

  /** The walk leads to `t` from a cycle, or from a table outside the schema. */
  ghost predicate Blocks(all: seq<string>, edges: seq<Edge>, walk: seq<string>, t: string) {
    Chain(edges, walk) && walk[|walk| - 1] == t && (walk[0] !in all || OnCycle(edges, walk[0]))
  }

  ghost predicate Blocked(all: seq<string>, edges: seq<Edge>, t: string) {
    exists walk :: Blocks(all, edges, walk, t)
  }

  /** Along a chain that ends in the sorted part, positions rise. */
  lemma {:induction false} ChainRises(all: seq<string>, edges: seq<Edge>, walk: seq<string>, k: nat) returns (j: nat)
    requires Chain(edges, walk) && k < |Peel(all, edges, {})| && Peel(all, edges, {})[k] == walk[|walk| - 1]
    ensures j + |walk| - 1 <= k && Peel(all, edges, {})[j] == walk[0]
    decreases |walk|
  {
    if |walk| == 1 {
      j := k;
    } else {
      var parent := walk[|walk| - 2];
      PeelParentsFirst(all, edges, k, parent);
      var i :| 0 <= i < k && Peel(all, edges, {})[..k][i] == parent;
      j := ChainRises(all, edges, walk[..|walk| - 1], i);
    }
  }

  lemma SortedIsNotBlocked(all: seq<string>, edges: seq<Edge>, t: string)
    requires t in Peel(all, edges, {})
    ensures !Blocked(all, edges, t)
  {
    var p := Peel(all, edges, {});
    PeelIsFresh(all, edges, {});
    var k :| 0 <= k < |p| && p[k] == t;
    if walk :| Blocks(all, edges, walk, t) {
      var j := ChainRises(all, edges, walk, k);
      var loop :| Chain(edges, loop) && |loop| >= 2 && loop[0] == walk[0] && loop[|loop| - 1] == walk[0];
      var i := ChainRises(all, edges, loop, j);
      assert false;
    }
  }

  /** Following waiting parents backwards from a table in the tail. */
  lemma {:induction false} WaitBack(all: seq<string>, edges: seq<Edge>, t: string, n: nat) returns (walk: seq<string>)
    requires t in all && t !in Peel(all, edges, {})
    ensures Chain(edges, walk) && walk[|walk| - 1] == t
    ensures walk[0] !in all || (|walk| == n + 1 && forall i :: 0 <= i < |walk| ==> walk[i] in all)
    decreases n
  {
    if n == 0 {
      walk := [t];
    } else {
      var parent := TailWaits(all, edges, t);
      if parent !in all {
        walk := [parent, t];
      } else {
        var back := WaitBack(all, edges, parent, n - 1);
        walk := back + [t];
      }
    }
  }

  lemma {:induction false} Repeats(walk: seq<string>, names: set<string>) returns (i: nat, j: nat)
    requires |walk| > |names| && forall k :: 0 <= k < |walk| ==> walk[k] in names
    ensures i < j < |walk| && walk[i] == walk[j]
    decreases |names|
  {
    var last := walk[|walk| - 1];
    var before := walk[..|walk| - 1];
    if last in before {
      i :| 0 <= i < |before| && before[i] == last;
      j := |walk| - 1;
    } else {
      forall k | 0 <= k < |before| ensures before[k] in names - {last} {
        assert before[k] == walk[k] && before[k] in before;
      }
      assert |names - {last}| == |names| - 1;
      i, j := Repeats(before, names - {last});
    }
  }

  lemma TailIsBlocked(all: seq<string>, edges: seq<Edge>, t: string)
    requires t in all && t !in Peel(all, edges, {})
    ensures Blocked(all, edges, t)
  {
    var walk := WaitBack(all, edges, t, |SetOf(all)|);
    if walk[0] in all {
      var i, j := Repeats(walk, SetOf(all));
      var loop := walk[i..j + 1];
      assert Chain(edges, loop) && loop[0] == loop[|loop| - 1];
      var rest := walk[i..];
      assert Chain(edges, rest) && OnCycle(edges, rest[0]);
      assert Blocks(all, edges, rest, t);
    } else {
      assert Blocks(all, edges, walk, t);
    }
  }

  /** The tail holds exactly the tables downstream of a cycle of foreign keys
      (or of a table outside the schema), after all others and in name order. */
  lemma TailIsExactlyTheBlocked(all: seq<string>, edges: seq<Edge>)
    requires Distinct(all)
    ensures var sorted := Peel(all, edges, {});
      && sorted <= Order(all, edges)
      && Order(all, edges)[|sorted|..] == Excluding(all, SetOf(sorted))
      && forall t :: t in all ==> (t !in sorted <==> Blocked(all, edges, t))
  {
    var sorted := Peel(all, edges, {});
    forall t | t in all ensures t !in sorted <==> Blocked(all, edges, t) {
      if t in sorted { SortedIsNotBlocked(all, edges, t); } else { TailIsBlocked(all, edges, t); }
    }
  }

  lemma {:induction false} ExcludingInOrder(all: seq<string>, drop: set<string>, i: nat, j: nat) returns (a: nat, b: nat)
    requires i < j < |Excluding(all, drop)|
    ensures a < b < |all| && all[a] == Excluding(all, drop)[i] && all[b] == Excluding(all, drop)[j]
  {
    var before := all[..|all| - 1];
    var kept := Excluding(before, drop);
    if j < |kept| {
      a, b := ExcludingInOrder(before, drop, i, j);
    } else {
      a := ExcludingAt(before, drop, i);
      b := |all| - 1;
    }
  }

  lemma {:induction false} ExcludingAt(all: seq<string>, drop: set<string>, i: nat) returns (a: nat)
    requires i < |Excluding(all, drop)|
    ensures a < |all| && all[a] == Excluding(all, drop)[i]
  {
    var before := all[..|all| - 1];
    if i < |Excluding(before, drop)| { a := ExcludingAt(before, drop, i); } else { a := |all| - 1; }
  }

  lemma BlockedIsInTail(all: seq<string>, edges: seq<Edge>, i: nat)
    requires Distinct(all) && i < |Order(all, edges)| && Blocked(all, edges, Order(all, edges)[i])
    ensures |Peel(all, edges, {})| <= i
  {
    TailIsExactlyTheBlocked(all, edges);
    OrderIsPermutation(all, edges);
    assert Order(all, edges)[i] in SetOf(Order(all, edges));
  }

  /** The blocked tables come out by name. */
  lemma TailIsByName(all: seq<string>, edges: seq<Edge>, i: nat, j: nat)
    requires Distinct(all) && i < j < |Order(all, edges)| && Blocked(all, edges, Order(all, edges)[i])
    ensures exists a, b :: 0 <= a < b < |all| && all[a] == Order(all, edges)[i] && all[b] == Order(all, edges)[j]
  {
    BlockedIsInTail(all, edges, i);
    var sorted := Peel(all, edges, {});
    var a, b := ExcludingInOrder(all, SetOf(sorted), i - |sorted|, j - |sorted|);
  }

  /** Every table that is not downstream of a cycle comes after all the tables
      it refers to, however often it refers to them. */
  lemma ParentsComeFirst(all: seq<string>, edges: seq<Edge>, k: nat, parent: string)
    requires Distinct(all) && k < |Order(all, edges)|
    requires !Blocked(all, edges, Order(all, edges)[k]) && Refers(edges, Order(all, edges)[k], parent)
    ensures parent in Order(all, edges)[..k]
  {
    var sorted := Peel(all, edges, {});
    var t := Order(all, edges)[k];
    OrderIsPermutation(all, edges);
    assert t in SetOf(Order(all, edges));
    TailIsExactlyTheBlocked(all, edges);
    ExcludingKeeps(all, SetOf(sorted));
    var tail := Excluding(all, SetOf(sorted));
    assert forall m :: 0 <= m < |tail| ==> tail[m] in tail;
    PeelParentsFirst(all, edges, k, parent);
    assert sorted[..k] == Order(all, edges)[..k];
  }

  // ---- The least topological order ----

  predicate Topological(all: seq<string>, edges: seq<Edge>, s: seq<string>) {
    && Distinct(s) && SetOf(s) == SetOf(all)
    && forall k :: 0 <= k < |s| ==> forall e :: e in edges && e.child == s[k] && e.parent != e.child ==> e.parent in s[..k]
  }

  lemma {:induction false} FirstReadyIsFirst(all: seq<string>, edges: seq<Edge>, done: set<string>, i: nat)
    requires i < |all| && Ready(edges, all[i], done)
    ensures exists j :: 0 <= j <= i && FirstReady(all, edges, done) == Some(all[j])
  {
    if Ready(edges, all[0], done) {
      assert FirstReady(all, edges, done) == Some(all[0]);
    } else {
      FirstReadyIsFirst(all[1..], edges, done, i - 1);
      var j :| 0 <= j <= i - 1 && FirstReady(all[1..], edges, done) == Some(all[1..][j]);
      assert all[1..][j] == all[j + 1];
    }
  }

  /** Without cycles the result is a topological order, and the least one: where
      another topological order first differs, it has an alphabetically later
      table. */
  lemma OrderIsLeast(all: seq<string>, edges: seq<Edge>, s: seq<string>, k: nat)
    requires Distinct(all) && (forall t :: t in all ==> !Blocked(all, edges, t))
    requires Topological(all, edges, s)
    requires k < |s| && k < |Order(all, edges)| && s[..k] == Order(all, edges)[..k] && s[k] != Order(all, edges)[k]
    ensures exists i, j :: 0 <= i < j < |all| && all[i] == Order(all, edges)[k] && all[j] == s[k]
  {
    var p := Peel(all, edges, {});
    NothingBlocked(all, edges);
    var done := SetOf(p[..k]);
    PeelAt(all, edges, {}, k);
    assert {} + done == done;
    assert s[k] in SetOf(s);
    var j :| 0 <= j < |all| && all[j] == s[k];
    assert s[k] !in done by {
      assert forall i :: 0 <= i < k ==> s[..k][i] == s[i] != s[k];
    }
    forall parent | Refers(edges, s[k], parent) ensures parent in done {
      assert parent in s[..k];
    }
    PendingIsZero(edges, s[k], done);
    FirstReadyIsFirst(all, edges, done, j);
  }

  lemma HasMember(s: seq<string>)
    ensures s != [] ==> exists t :: t in s
  {
    if s != [] { assert s[0] in s; }
  }

  lemma NothingBlocked(all: seq<string>, edges: seq<Edge>)
    requires Distinct(all) && (forall t :: t in all ==> !Blocked(all, edges, t))
    ensures Order(all, edges) == Peel(all, edges, {})
  {
    var sorted := Peel(all, edges, {});
    TailIsExactlyTheBlocked(all, edges);
    ExcludingKeeps(all, SetOf(sorted));
    var tail := Excluding(all, SetOf(sorted));
    HasMember(tail);
  }

  lemma OrderIsTopological(all: seq<string>, edges: seq<Edge>)
    requires Distinct(all) && (forall t :: t in all ==> !Blocked(all, edges, t))
    ensures Topological(all, edges, Order(all, edges))
  {
    OrderIsPermutation(all, edges);
    var o := Order(all, edges);
    forall k, e | 0 <= k < |o| && e in edges && e.child == o[k] && e.parent != e.child
      ensures e.parent in o[..k]
    {
      assert o[k] in SetOf(o);
      assert Refers(edges, o[k], e.parent);
      ParentsComeFirst(all, edges, k, e.parent);
    }
  }
}
