/** The per-user session quota: what an issue evicts, and that every run keeps
    within the quota. */
module SessionQuota {
  import opened Common
  import opened SessionTable
  import opened LoginGate
  import opened SessionProtocol

  /** Every evicted row is at most as active as every row that stays. */
  lemma {:induction false} EvictionKeepsMostActive(rows: Rows, user: string, victims: seq<Id>)
    requires Evicts(rows, user, victims)
    ensures forall v, k :: v in victims && k in UserRows(rows, user) && k !in victims ==> v in rows && NoMoreActive(rows[v], rows[k])
    decreases |victims|
  {
    if victims != [] {
      var rest := rows - {victims[0]};
      EvictionKeepsMostActive(rest, user, victims[1..]);
      forall v, k | v in victims && k in UserRows(rows, user) && k !in victims
        ensures v in rows && NoMoreActive(rows[v], rows[k])
      {
        assert k in UserRows(rest, user) && v in [victims[0]] + victims[1..];
        if v in victims[1..] { assert v in rest; }
      }
    }
  }

  lemma EvictionCounts(rows: Rows, user: string, victims: seq<Id>)
    requires Evicts(rows, user, victims)
    ensures |UserRows(rows - SetOf(victims), user)| == |UserRows(rows, user)| - |victims|
  {
    EvictionTakesRows(rows, user, victims);
    WithoutRows(rows, user, SetOf(victims));
  }

  ghost predicate WithinQuota(cfg: Config, db: Db) {
    cfg.maxSessions > 0 ==> forall user :: |UserRows(db.rows, user)| <= cfg.maxSessions
  }

  lemma SubsetSize<T>(a: set<T>, b: set<T>)
    requires a <= b
    ensures |a| <= |b|
  {
    assert b == a + (b - a);
  }

  /** An issue brings its user back under the quota and adds the new session,
      whose token is then acceptable. */
  lemma IssueRespectsQuota(cfg: Config, db: Db, op: Op)
    requires op.Issue? && Consistent(db) && Enabled(cfg, db, op)
    ensures var before, after := |UserRows(db.rows, op.user)|, |UserRows(Next(cfg, db, op).rows, op.user)|;
      && (cfg.maxSessions <= 0 || before < cfg.maxSessions ==> after == before + (if op.keyReady then 1 else 0))
      && (0 < cfg.maxSessions <= before ==> after == cfg.maxSessions - (if op.keyReady then 0 else 1))
    ensures op.keyReady ==> CurrentRow(Next(cfg, db, op).rows, op.token) == Some(op.id)
  {
    var kept := db.rows - SetOf(op.victims);
    EvictionCounts(db.rows, op.user, op.victims);
    if op.keyReady {
      IssueAddsRow(kept, op.user, op.id, Next(cfg, db, op).rows[op.id]);
      TokenIsNew(cfg, db, op);
    }
  }

  lemma IssueAddsRow(kept: Rows, user: string, id: Id, s: Session)
    requires id !in kept && s.userId == user
    ensures |UserRows(kept[id := s], user)| == |UserRows(kept, user)| + 1
  {
    assert UserRows(kept[id := s], user) == UserRows(kept, user) + {id};
  }

  /** The rows an issue evicts belong to its user and are at most as active as
      those it leaves; every other session stays as it is. */
  lemma IssueKeepsMostActive(cfg: Config, db: Db, op: Op)
    requires op.Issue? && Enabled(cfg, db, op)
    ensures forall v, k :: v in op.victims && k in UserRows(db.rows, op.user) && k !in op.victims
                           ==> v in db.rows && NoMoreActive(db.rows[v], db.rows[k])
    ensures forall id :: id in db.rows && (db.rows[id].userId != op.user || id !in op.victims)
              ==> id in Next(cfg, db, op).rows && Next(cfg, db, op).rows[id] == db.rows[id]
  {
    EvictionKeepsMostActive(db.rows, op.user, op.victims);
    EvictionTakesRows(db.rows, op.user, op.victims);
  }

  lemma TokenIsNew(cfg: Config, db: Db, op: Op)
    requires op.Issue? && op.keyReady && Enabled(cfg, db, op)
    requires Consistent(db)
    ensures CurrentRow(Next(cfg, db, op).rows, op.token) == Some(op.id)
  {
    var db' := Next(cfg, db, op);
    assert Holds(db'.rows, op.id, op.token);
    StepKeepsConsistent(cfg, db, op);
  }

  /** A token just issued can be refreshed until its lifetime is over and no
      longer, while its row stays and its account is open. */
  lemma IssuedTokenLastsIff(cfg: Config, db: Db, op: Op, at: int, checks: Checks)
    requires op.Issue? && op.keyReady && Consistent(db) && Enabled(cfg, db, op)
    requires checks.user.Some? && MayEnter(checks.user.value, at) && checks.keyReady
    ensures ReplyTo(Next(cfg, db, op).rows, op.token, false, at, checks) == Accepted(op.user) <==> at - op.at <= cfg.refreshTtl
    ensures var s := Next(cfg, db, op).rows[op.id]; s.previous == NoHash && s.createdAt == op.at && s.lastActive == op.at
  {
    TokenIsNew(cfg, db, op);
  }

  lemma StepKeepsQuota(cfg: Config, db: Db, op: Op)
    requires Consistent(db) && WithinQuota(cfg, db) && Enabled(cfg, db, op)
    ensures WithinQuota(cfg, Next(cfg, db, op))
  {
    var db' := Next(cfg, db, op);
    if cfg.maxSessions > 0 {
      forall user ensures |UserRows(db'.rows, user)| <= cfg.maxSessions {
        if op.Issue? && op.user == user {
          IssueRespectsQuota(cfg, db, op);
        } else {
          SubsetSize(UserRows(db'.rows, user), UserRows(db.rows, user));
        }
      }
    }
  }

  /** From an empty table no run ever exceeds the quota. */
  lemma {:induction false} QuotaHolds(cfg: Config, db: Db, ops: seq<Op>)
    requires Consistent(db) && WithinQuota(cfg, db) && Runs(cfg, db, ops)
    ensures WithinQuota(cfg, After(cfg, db, ops))
    ensures Consistent(Empty) && WithinQuota(cfg, Empty)
    decreases |ops|
  {
    if ops != [] {
      StepKeepsConsistent(cfg, db, ops[0]);
      StepKeepsQuota(cfg, db, ops[0]);
      QuotaHolds(cfg, Next(cfg, db, ops[0]), ops[1..]);
    }
  }
}
