/** What every run of the refresh-token protocol keeps: single use, reuse
    detection, and sessions that stay ended. */
module SessionSafety {
  import opened Common
  import opened SessionTable
  import opened LoginGate
  import opened SessionProtocol

  /** In a consistent table each row has exactly one acceptable token. */
  lemma OneAcceptableToken(db: Db, id: Id, at: int, checks: Checks)
    requires Consistent(db) && id in db.rows && at <= db.rows[id].expiresAt
    requires checks.user.Some? && checks.user.value.active && !WindowClosed(checks.user.value, at) && checks.keyReady
    ensures forall t: Token ::
      (ReplyTo(db.rows, t, false, at, checks).Accepted? && CurrentRow(db.rows, t) == Some(id)) <==> HashOf(t) == db.rows[id].hash
  {
    forall t: Token | HashOf(t) == db.rows[id].hash
      ensures CurrentRow(db.rows, t) == Some(id)
    {
      assert Holds(db.rows, id, t);
    }
  }

  /** A token that no row holds any more. */
  ghost predicate Spent(db: Db, token: Token) {
    token in db.lineage && forall id :: !Holds(db.rows, id, token)
  }

  lemma SpentStaysSpent(cfg: Config, db: Db, op: Op, token: Token)
    requires Enabled(cfg, db, op) && Spent(db, token)
    ensures Spent(Next(cfg, db, op), token)
    ensures !(Accepts(db, op) && op.token == token)
  {
    var db' := Next(cfg, db, op);
    forall id ensures !Holds(db'.rows, id, token) {
      assert !Holds(db.rows, id, token);
    }
  }

  lemma {:induction false} SpentIsNeverAccepted(cfg: Config, db: Db, ops: seq<Op>, token: Token)
    requires Runs(cfg, db, ops) && Spent(db, token)
    ensures token !in AcceptedTokens(cfg, db, ops)
    decreases |ops|
  {
    if ops != [] {
      SpentStaysSpent(cfg, db, ops[0], token);
      SpentIsNeverAccepted(cfg, Next(cfg, db, ops[0]), ops[1..], token);
    }
  }

  lemma AcceptedIsSpent(cfg: Config, db: Db, op: Op)
    requires Consistent(db) && Enabled(cfg, db, op) && Accepts(db, op)
    ensures Spent(Next(cfg, db, op), op.token)
  {
    var id := CurrentRow(db.rows, op.token).value;
    assert Holds(db.rows, id, op.token);
    var db' := Next(cfg, db, op);
    forall other ensures !Holds(db'.rows, other, op.token) {
      if other != id && Holds(db.rows, other, op.token) { assert false; }
    }
  }

  predicate Distinct<T(==)>(s: seq<T>) {
    forall i, j :: 0 <= i < j < |s| ==> s[i] != s[j]
  }

  /** Single use: no run accepts the same refresh token twice. */
  lemma {:induction false} TokensAreSingleUse(cfg: Config, db: Db, ops: seq<Op>)
    requires Consistent(db) && Runs(cfg, db, ops)
    ensures Distinct(AcceptedTokens(cfg, db, ops))
    decreases |ops|
  {
    if ops != [] {
      var db' := Next(cfg, db, ops[0]);
      StepKeepsConsistent(cfg, db, ops[0]);
      TokensAreSingleUse(cfg, db', ops[1..]);
      if Accepts(db, ops[0]) {
        AcceptedIsSpent(cfg, db, ops[0]);
        SpentIsNeverAccepted(cfg, db', ops[1..], ops[0].token);
      }
    }
  }

  // ---- Removed rows ----

  /** A session that existed and whose row is gone. */
  ghost predicate Removed(db: Db, id: Id) {
    id in db.lineage.Values && id !in db.rows
  }

  lemma RemovedStaysRemoved(cfg: Config, db: Db, op: Op, id: Id)
    requires Consistent(db) && Enabled(cfg, db, op) && Removed(db, id)
    ensures Removed(Next(cfg, db, op), id)
    ensures forall t :: t in db.lineage && db.lineage[t] == id ==> Spent(db, t)
    ensures forall t :: t in Next(cfg, db, op).lineage && Next(cfg, db, op).lineage[t] == id
                    ==> t in db.lineage && db.lineage[t] == id
  {
    var db' := Next(cfg, db, op);
    var t :| t in db.lineage && db.lineage[t] == id;
    assert t in db'.lineage && db'.lineage[t] == id;
  }

  /** Once a row is removed no token of its lineage is ever accepted again, and
      the session never comes back. */
  lemma {:induction false} RemovedLineageIsDead(cfg: Config, db: Db, ops: seq<Op>, id: Id)
    requires Consistent(db) && Runs(cfg, db, ops) && Removed(db, id)
    ensures Removed(After(cfg, db, ops), id)
    ensures forall t :: t in After(cfg, db, ops).lineage && After(cfg, db, ops).lineage[t] == id
                    ==> t !in AcceptedTokens(cfg, db, ops)
    decreases |ops|
  {
    if ops != [] {
      var db' := Next(cfg, db, ops[0]);
      StepKeepsConsistent(cfg, db, ops[0]);
      RemovedStaysRemoved(cfg, db, ops[0], id);
      RemovedLineageIsDead(cfg, db', ops[1..], id);
      var end := After(cfg, db, ops);
      forall t | t in end.lineage && end.lineage[t] == id
        ensures t !in AcceptedTokens(cfg, db, ops)
      {
        RemovedLineageStays(cfg, db, ops, id, t);
        SpentIsNeverAccepted(cfg, db, ops, t);
      }
    }
  }

  /** A removed session gets no new tokens. */
  lemma {:induction false} RemovedLineageStays(cfg: Config, db: Db, ops: seq<Op>, id: Id, t: Token)
    requires Consistent(db) && Runs(cfg, db, ops) && Removed(db, id)
    requires t in After(cfg, db, ops).lineage && After(cfg, db, ops).lineage[t] == id
    ensures t in db.lineage && db.lineage[t] == id && Spent(db, t)
    decreases |ops|
  {
    if ops == [] {
      assert forall other :: Holds(db.rows, other, t) ==> db.lineage[t] == other;
    } else {
      StepKeepsConsistent(cfg, db, ops[0]);
      RemovedStaysRemoved(cfg, db, ops[0], id);
      RemovedLineageStays(cfg, Next(cfg, db, ops[0]), ops[1..], id, t);
    }
  }

  /** The sessions a step is meant to end, said in the caller's terms. */
  ghost function Ends(db: Db, op: Op): set<Id> {
    match op
    case Issue(_, _, _, victims, _, _) => SetOf(victims)
    case Refresh(token, locked, at, _, _) =>
      if locked then {}
      else set id | id in db.rows && (|| db.rows[id].previous == HashOf(token)
                                     || (db.rows[id].hash == HashOf(token) && db.rows[id].expiresAt < at))
    case Logout(token) => set id | id in db.rows && db.rows[id].hash == HashOf(token)
    case Revoke(user, id) => UserRows(db.rows, user) * {id}
    case RemoveAll(user) => UserRows(db.rows, user)
    case Purge(at) => set id | id in db.rows && db.rows[id].expiresAt < at
  }

  /** A step ends exactly the sessions it is meant to end, and every session it
      ends is dead for good. */
  lemma StepsEndExactly(cfg: Config, db: Db, op: Op, later: seq<Op>)
    requires Consistent(db) && Enabled(cfg, db, op)
    ensures forall id :: id in db.rows ==> (id !in Next(cfg, db, op).rows <==> id in Ends(db, op))
    ensures Runs(cfg, db, [op] + later) ==>
              forall id :: id in Ends(db, op) && id in db.rows ==> Removed(After(cfg, db, [op] + later), id)
  {
    var db' := Next(cfg, db, op);
    forall id | id in db.rows
      ensures id !in db'.rows <==> id in Ends(db, op)
    {
      if op.Refresh? {
        assert Holds(db.rows, id, op.token) ==> CurrentRow(db.rows, op.token) == Some(id);
        assert Remembers(db.rows, id, op.token) ==> PreviousRow(db.rows, op.token) == Some(id);
        if Remembers(db.rows, id, op.token) {
          NotHeldWhenRemembered(db, op.token, id);
        }
      }
    }
    assert ([op] + later)[1..] == later;
    if Runs(cfg, db, [op] + later) {
      StepKeepsConsistent(cfg, db, op);
      forall id | id in Ends(db, op) && id in db.rows
        ensures Removed(After(cfg, db', later), id)
      {
        assert db'.lineage[db.rows[id].hash.token] == id;
        RemovedLineageIsDead(cfg, db', later, id);
      }
    }
  }

  lemma NotHeldWhenRemembered(db: Db, token: Token, id: Id)
    requires Consistent(db) && Remembers(db.rows, id, token)
    ensures CurrentRow(db.rows, token).None?
  {
    forall other ensures !Holds(db.rows, other, token) {
      if Holds(db.rows, other, token) && other == id { assert false; }
    }
  }

  /** Reuse detection. Presenting, past the limiter gate, the token a session
      held just before its last rotation removes the session; from then on no
      token of that session is accepted, the one of the thief or of the owner. */
  lemma ReuseRevokes(cfg: Config, db: Db, token: Token, id: Id, at: int, checks: Checks, minted: Token, later: seq<Op>)
    requires Consistent(db) && id in db.rows && db.rows[id].previous == HashOf(token)
    requires minted !in db.lineage
    ensures ReplyTo(db.rows, token, false, at, checks) == Reused
    ensures
      var db' := AfterRefresh(cfg, db, token, false, at, checks, minted);
      && db' == db.(rows := db.rows - {id})
      && (Runs(cfg, db', later) ==>
            forall t :: t in After(cfg, db', later).lineage && After(cfg, db', later).lineage[t] == id
                    ==> t !in AcceptedTokens(cfg, db', later))
  {
    assert Remembers(db.rows, id, token);
    assert PreviousRow(db.rows, token) == Some(id);
    NotHeldWhenRemembered(db, token, id);
    var op := Refresh(token, false, at, checks, minted);
    var db' := Next(cfg, db, op);
    StepKeepsConsistent(cfg, db, op);
    assert db.lineage[db.rows[id].hash.token] == id;
    assert Removed(db', id);
    if Runs(cfg, db', later) {
      RemovedLineageIsDead(cfg, db', later, id);
    }
  }

  /** The table remembers one step: a token older than that is refused, and
      nothing is revoked. */
  lemma OlderTokenIsOnlyRefused(cfg: Config, db: Db, token: Token, at: int, checks: Checks, minted: Token)
    requires forall id :: id in db.rows ==> db.rows[id].hash != HashOf(token) && db.rows[id].previous != HashOf(token)
    ensures ReplyTo(db.rows, token, false, at, checks) == Unknown
    ensures AfterRefresh(cfg, db, token, false, at, checks, minted) == db
  {
    assert forall id :: !Holds(db.rows, id, token);
  }

  /** An accepted refresh hands the session over: the new token is the
      acceptable one, the old one is remembered, and replaying it revokes. */
  lemma RefreshHandsOver(cfg: Config, db: Db, op: Op, id: Id)
    requires Consistent(db) && Enabled(cfg, db, op) && Accepts(db, op) && Holds(db.rows, id, op.token)
    ensures
      var db' := Next(cfg, db, op);
      && CurrentRow(db'.rows, op.minted) == Some(id) && PreviousRow(db'.rows, op.token) == Some(id)
      && CurrentRow(db'.rows, op.token).None?
      && db'.rows[id].expiresAt == op.at + cfg.refreshTtl && db'.rows[id].userId == db.rows[id].userId
      && db'.rows - {id} == db.rows - {id}
  {
    var db' := Next(cfg, db, op);
    StepKeepsConsistent(cfg, db, op);
    assert CurrentRow(db.rows, op.token) == Some(id);
    assert Holds(db'.rows, id, op.minted) && Remembers(db'.rows, id, op.token);
    AcceptedIsSpent(cfg, db, op);
  }

  /** Reuse detection reaches exactly one token back. After two refreshes in a
      row the second token is the remembered one, whose return revokes the
      session, while the first is answered like an unknown one and revokes
      nothing. */
  lemma ReuseReachesOneBack(cfg: Config, db: Db, id: Id, first: Op, second: Op, at: int, checks: Checks, minted: Token)
    requires Consistent(db) && Enabled(cfg, db, first) && Accepts(db, first) && Holds(db.rows, id, first.token)
    ensures TwoRefreshes(cfg, db, first, second) ==>
              var end := Next(cfg, Next(cfg, db, first), second);
              && ReplyTo(end.rows, second.token, false, at, checks) == Reused
              && PreviousRow(end.rows, second.token) == Some(id)
              && ReplyTo(end.rows, first.token, false, at, checks) == Unknown
              && AfterRefresh(cfg, end, first.token, false, at, checks, minted) == end
  {
    if TwoRefreshes(cfg, db, first, second) {
      var mid := Next(cfg, db, first);
      var end := Next(cfg, mid, second);
      RefreshHandsOver(cfg, db, first, id);
      StepKeepsConsistent(cfg, db, first);
      assert CurrentRow(mid.rows, second.token) == Some(id);
      RefreshHandsOver(cfg, mid, second, id);
      StepKeepsConsistent(cfg, mid, second);
      assert end.lineage[first.token] == id;
      forall other | other in end.rows
        ensures end.rows[other].hash != HashOf(first.token) && end.rows[other].previous != HashOf(first.token)
      {
        if other == id { assert Holds(end.rows, id, second.minted) && Remembers(end.rows, id, second.token); }
      }
      OlderTokenIsOnlyRefused(cfg, end, first.token, at, checks, minted);
    }
  }

  /** The second step is an accepted refresh with the token the first one gave. */
  ghost predicate TwoRefreshes(cfg: Config, db: Db, first: Op, second: Op) {
    && first.Refresh? && second.Refresh? && second.token == first.minted
    && Enabled(cfg, Next(cfg, db, first), second) && Accepts(Next(cfg, db, first), second)
  }
}
