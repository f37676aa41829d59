/** The order of quota evictions: by activity, as the query has it, and not by
    creation, as the issuer's comment has it. */
module EvictionOrder {
  import opened Common
  import opened SessionTable
  import opened LoginGate
  import opened SessionProtocol
  import opened SessionQuota

  /** What the issuer's comment promises: the evicted sessions are the oldest
      by creation. */
  ghost predicate KeepsNewest(rows: Rows, user: string, victims: seq<Id>) {
    forall v, k :: v in victims && v in rows && k in UserRows(rows, user) && k !in victims
      ==> rows[v].createdAt <= rows[k].createdAt
  }

  /** No session of the user was refreshed past a later login. */
  predicate ActivityFollowsCreation(rows: Rows, user: string) {
    forall a, b :: a in UserRows(rows, user) && b in UserRows(rows, user) && rows[a].createdAt < rows[b].createdAt
      ==> rows[a].lastActive <= rows[b].lastActive
  }

  /** A row can be evicted before another that is strictly more active. */
  lemma EvictPast(rows: Rows, user: string, a: Id, b: Id) returns (victims: seq<Id>)
    requires a in UserRows(rows, user) && b in UserRows(rows, user) && rows[b].lastActive < rows[a].lastActive
    ensures Evicts(rows, user, victims) && b in victims && a !in victims
    decreases |UserRows(rows, user)|
  {
    var v := LeastActiveExists(rows, user, UserRows(rows, user));
    var rest := rows - {v};
    if v == b {
      victims := [b];
      assert victims[1..] == [];
    } else {
      assert UserRows(rest, user) == UserRows(rows, user) - {v};
      var more := EvictPast(rest, user, a, b);
      victims := [v] + more;
      assert victims[1..] == more;
    }
  }

  /** Evictions are first-in first-out for every quota exactly when no session
      of the user was refreshed past a later login. */
  lemma EvictionIsFifoIff(rows: Rows, user: string)
    ensures (forall victims :: Evicts(rows, user, victims) ==> KeepsNewest(rows, user, victims))
       <==> ActivityFollowsCreation(rows, user)
  {
    if ActivityFollowsCreation(rows, user) {
      forall victims | Evicts(rows, user, victims) ensures KeepsNewest(rows, user, victims) {
        EvictionKeepsMostActive(rows, user, victims);
        EvictionTakesRows(rows, user, victims);
        forall v, k | v in victims && k in UserRows(rows, user) && k !in victims
          ensures rows[v].createdAt <= rows[k].createdAt
        {
          assert v in SetOf(victims) && NoMoreActive(rows[v], rows[k]);
        }
      }
    } else {
      var a, b :| a in UserRows(rows, user) && b in UserRows(rows, user) && rows[a].createdAt < rows[b].createdAt
                  && rows[b].lastActive < rows[a].lastActive;
      var victims := EvictPast(rows, user, a, b);
      assert !KeepsNewest(rows, user, victims);
    }
  }

  // ---- One call, with its own number of evictions ----

  /** The rows strictly less active than this one. */
  function Below(rows: Rows, user: string, b: Id): set<Id>
    requires b in rows
  {
    set x | x in UserRows(rows, user) && !NoMoreActive(rows[b], rows[x])
  }

  /** The other rows that are no more active than this one. */
  function NotAbove(rows: Rows, user: string, a: Id): set<Id>
    requires a in rows
  {
    set x | x in UserRows(rows, user) && x != a && NoMoreActive(rows[x], rows[a])
  }

  /** `a` is older by creation and more active than `b`, and with `n` evictions
      `b` can be among them while `a` stays. */
  predicate Overtaken(rows: Rows, user: string, n: nat, a: Id, b: Id) {
    && a in UserRows(rows, user) && b in UserRows(rows, user)
    && rows[a].createdAt < rows[b].createdAt && rows[b].lastActive < rows[a].lastActive
    && |Below(rows, user, b)| < n <= |NotAbove(rows, user, a)|
  }

  /** Nothing that stays is less active than something that goes. */
  predicate Lowest(rows: Rows, user: string, gone: set<Id>) {
    && gone <= UserRows(rows, user)
    && forall v, k :: v in gone && k in UserRows(rows, user) && k !in gone ==> NoMoreActive(rows[v], rows[k])
  }

  /** Any such set is what some eviction takes. */
  lemma EvictSet(rows: Rows, user: string, gone: set<Id>) returns (victims: seq<Id>)
    requires Lowest(rows, user, gone)
    ensures Evicts(rows, user, victims) && SetOf(victims) == gone
    decreases |gone|
  {
    if gone == {} {
      victims := [];
    } else {
      var v := LeastActiveExists(rows, user, gone);
      forall other | other in UserRows(rows, user)
        ensures NoMoreActive(rows[v], rows[other])
      {
      }
      WithoutRows(rows, user, {v});
      var more := EvictSet(rows - {v}, user, gone - {v});
      victims := [v] + more;
      assert victims[1..] == more;
      SetOfPush(v, more);
    }
  }

  lemma SetOfPush(v: Id, more: seq<Id>)
    ensures SetOf([v] + more) == {v} + SetOf(more)
  {
  }

  /** A set that spares `a` grows to `n` rows, always by a least active one. */
  lemma Grow(rows: Rows, user: string, a: Id, n: nat, gone: set<Id>) returns (more: set<Id>)
    requires a in UserRows(rows, user) && Lowest(rows, user, gone)
    requires gone <= NotAbove(rows, user, a) && |gone| <= n <= |NotAbove(rows, user, a)|
    ensures Lowest(rows, user, more) && gone <= more <= NotAbove(rows, user, a) && |more| == n
    decreases n - |gone|
  {
    more := gone;
    if |gone| < n {
      var left := NotAbove(rows, user, a) - gone;
      assert NotAbove(rows, user, a) == gone + left;
      assert |left| == |NotAbove(rows, user, a)| - |gone|;
      var x := LeastActiveExists(rows, user, left);
      forall k | k in UserRows(rows, user) && k !in gone
        ensures NoMoreActive(rows[x], rows[k])
      {
        if k !in left { assert NoMoreActive(rows[x], rows[a]); }
      }
      more := Grow(rows, user, a, n, gone + {x});
    }
  }

  /** An overtaken row can be the one that goes. */
  lemma OvertakenIsEvicted(rows: Rows, user: string, n: nat, a: Id, b: Id) returns (victims: seq<Id>)
    requires Overtaken(rows, user, n, a, b)
    ensures Evicts(rows, user, victims) && |victims| == n && !KeepsNewest(rows, user, victims)
  {
    var least := Below(rows, user, b) + {b};
    assert least <= NotAbove(rows, user, a);
    assert |least| == |Below(rows, user, b)| + 1;
    var gone := Grow(rows, user, a, n, least);
    victims := EvictSet(rows, user, gone);
    EvictionTakesRows(rows, user, victims);
    assert b in SetOf(victims) && a !in SetOf(victims);
  }

  /** And only such a row is evicted out of turn. */
  lemma EvictedIsOvertaken(rows: Rows, user: string, victims: seq<Id>, a: Id, b: Id)
    requires Evicts(rows, user, victims) && b in victims && b in rows
    requires a in UserRows(rows, user) && a !in victims && rows[a].createdAt < rows[b].createdAt
    ensures Overtaken(rows, user, |victims|, a, b)
  {
    EvictionKeepsMostActive(rows, user, victims);
    EvictionTakesRows(rows, user, victims);
    var gone := SetOf(victims);
    assert b in gone;
    assert Below(rows, user, b) <= gone - {b};
    SubsetSize(Below(rows, user, b), gone - {b});
    assert gone <= NotAbove(rows, user, a);
    SubsetSize(gone, NotAbove(rows, user, a));
  }

  /** A call that evicts `n` sessions is bound to take the oldest by creation if
      and only if no session is overtaken at `n`. An issue evicts its surplus. */
  lemma EvictionIsFifoForIff(rows: Rows, user: string, n: nat)
    ensures (forall victims :: Evicts(rows, user, victims) && |victims| == n ==> KeepsNewest(rows, user, victims))
       <==> !exists a, b :: Overtaken(rows, user, n, a, b)
  {
    if a, b :| Overtaken(rows, user, n, a, b) {
      var victims := OvertakenIsEvicted(rows, user, n, a, b);
    } else {
      forall victims | Evicts(rows, user, victims) && |victims| == n
        ensures KeepsNewest(rows, user, victims)
      {
        forall v, k | v in victims && v in rows && k in UserRows(rows, user) && k !in victims
          ensures rows[v].createdAt <= rows[k].createdAt
        {
          if rows[k].createdAt < rows[v].createdAt { EvictedIsOvertaken(rows, user, victims, k, v); }
        }
      }
    }
  }

  // A run in which the quota evicts the newer of two sessions, because the
  // older one was refreshed in between.

  const TwoSessions := Config(2, 100)
  const LoginA := Issue("u", "a", "t1", [], 0, true)
  const LoginB := Issue("u", "b", "t2", [], 1, true)
  const RefreshA := Refresh("t1", false, 5, Checks(Some(User("u", true, None)), true), "t3")
  const LoginC := Issue("u", "c", "t4", ["b"], 6, true)

  const DbA := Db(map["a" := Session("u", HashOf("t1"), NoHash, 0, 0, 100)], map["t1" := "a"])
  const DbAB := Db(map["a" := Session("u", HashOf("t1"), NoHash, 0, 0, 100), "b" := Session("u", HashOf("t2"), NoHash, 1, 1, 101)],
                   map["t1" := "a", "t2" := "b"])
  const DbRefreshed := Db(map["a" := Session("u", HashOf("t3"), HashOf("t1"), 0, 5, 105), "b" := Session("u", HashOf("t2"), NoHash, 1, 1, 101)],
                          map["t1" := "a", "t2" := "b", "t3" := "a"])

  lemma TwoLogins()
    ensures Enabled(TwoSessions, Empty, LoginA) && Next(TwoSessions, Empty, LoginA) == DbA
    ensures Enabled(TwoSessions, DbA, LoginB) && Next(TwoSessions, DbA, LoginB) == DbAB
  {
    assert UserRows(Empty.rows, "u") == {} && SetOf([]) == {} && UserRows(DbA.rows, "u") == {"a"};
    assert DbA.rows - {} == DbA.rows;
  }

  lemma OlderIsRefreshed()
    ensures Enabled(TwoSessions, DbAB, RefreshA) && Next(TwoSessions, DbAB, RefreshA) == DbRefreshed
  {
    assert Holds(DbAB.rows, "a", "t1");
    assert CurrentRow(DbAB.rows, "t1") == Some("a");
  }

  lemma NewerIsEvicted()
    ensures Enabled(TwoSessions, DbRefreshed, LoginC)
  {
    assert UserRows(DbRefreshed.rows, "u") == {"a", "b"};
    assert LeastActive(DbRefreshed.rows, "u", "b");
    assert ["b"][1..] == [];
  }

  lemma EvictionIsNotFifo()
    ensures Runs(TwoSessions, Empty, [LoginA, LoginB, RefreshA, LoginC])
    ensures var rows := After(TwoSessions, Empty, [LoginA, LoginB, RefreshA]).rows;
            !KeepsNewest(rows, LoginC.user, LoginC.victims)
  {
    TwoLogins();
    OlderIsRefreshed();
    NewerIsEvicted();
    RunsStep(TwoSessions, DbRefreshed, LoginC, []);
    RunsStep(TwoSessions, DbAB, RefreshA, [LoginC]);
    RunsStep(TwoSessions, DbA, LoginB, [RefreshA, LoginC]);
    RunsStep(TwoSessions, Empty, LoginA, [LoginB, RefreshA, LoginC]);
    RunsStep(TwoSessions, DbAB, RefreshA, []);
    RunsStep(TwoSessions, DbA, LoginB, [RefreshA]);
    RunsStep(TwoSessions, Empty, LoginA, [LoginB, RefreshA]);
    assert [LoginC] + [] == [LoginC] && [RefreshA] + [] == [RefreshA];
    assert After(TwoSessions, Empty, [LoginA, LoginB, RefreshA]) == DbRefreshed;
    assert "a" in UserRows(DbRefreshed.rows, "u");
  }

  lemma RunsStep(cfg: Config, db: Db, op: Op, rest: seq<Op>)
    ensures Enabled(cfg, db, op) && Runs(cfg, Next(cfg, db, op), rest) ==> Runs(cfg, db, [op] + rest)
    ensures After(cfg, db, [op] + rest) == After(cfg, Next(cfg, db, op), rest)
  {
    assert ([op] + rest)[1..] == rest;
  }
}
