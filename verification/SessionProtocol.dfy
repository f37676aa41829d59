/** The refresh-token protocol of internal/auth: issue with a per-user quota,
    rotation with reuse detection (section 10.4 of RFC 6749 and section 4.14.2
    of RFC 9700), logout, revocation, removal of all sessions of a user and
    expiry cleanup, as steps on the sessions table; and what every run keeps. */
module SessionProtocol {
  import opened Common
  import opened SessionTable
  import opened LoginGate

  datatype Config = Config(maxSessions: int, refreshTtl: int)

  /** What the rest of the server answers during a refresh: the user row, if the
      lookup succeeds, and whether the keystore has a signing key. */
  datatype Checks = Checks(user: Option<User>, keyReady: bool)

  datatype RefreshReply =
    | TooManyAttempts | Reused | Unknown | Expired | UserLookupFailed | NoAccess | Disabled | NoSigningKey
    | Accepted(userId: string)

  datatype Op =
    | Issue(user: string, id: Id, token: Token, victims: seq<Id>, at: int, keyReady: bool)
    | Refresh(token: Token, locked: bool, at: int, checks: Checks, minted: Token)
    | Logout(token: Token)
    | Revoke(user: string, id: Id)
    | RemoveAll(user: string)
    | Purge(at: int)

  /** The rows a quota eviction deletes, one least-active row at a time. */
  predicate Evicts(rows: Rows, user: string, victims: seq<Id>)
    decreases |victims|
  {
    victims == [] || (LeastActive(rows, user, victims[0]) && Evicts(rows - {victims[0]}, user, victims[1..]))
  }

  function Surplus(cfg: Config, rows: Rows, user: string): nat {
    var count := |UserRows(rows, user)|;
    if 0 < cfg.maxSessions <= count then count - cfg.maxSessions + 1 else 0
  }

  ghost function ReplyTo(rows: Rows, token: Token, locked: bool, at: int, checks: Checks): RefreshReply {
    if locked then TooManyAttempts
    else
      match CurrentRow(rows, token)
      case None => if PreviousRow(rows, token).Some? then Reused else Unknown
      case Some(id) =>
        if at > rows[id].expiresAt then Expired
        else if checks.user.None? then UserLookupFailed
        else if WindowClosed(checks.user.value, at) then NoAccess
        else if !checks.user.value.active then Disabled
        else if !checks.keyReady then NoSigningKey
        else Accepted(rows[id].userId)
  }

  /** What a refresh reply does to the limiter keys of the address and token. */
  function VerdictOf(reply: RefreshReply): Verdict {
    match reply
    case Reused | Unknown | Expired => PenaliseBoth
    case NoAccess | Disabled => PenaliseFirst
    case NoSigningKey | Accepted(_) => Clear
    case TooManyAttempts | UserLookupFailed => Leave
  }

  ghost function AfterRefresh(cfg: Config, db: Db, token: Token, locked: bool, at: int, checks: Checks, minted: Token): Db {
    match ReplyTo(db.rows, token, locked, at, checks)
    case Reused => db.(rows := db.rows - {PreviousRow(db.rows, token).value})
    case Expired => db.(rows := db.rows - {CurrentRow(db.rows, token).value})
    case Accepted(_) =>
      var id := CurrentRow(db.rows, token).value;
      Db(db.rows[id := Rotated(db.rows[id], minted, at, at + cfg.refreshTtl)], db.lineage[minted := id])
    case _ => db
  }

  ghost function Next(cfg: Config, db: Db, op: Op): Db {
    match op
    case Issue(user, id, token, victims, at, keyReady) =>
      var kept := db.rows - SetOf(victims);
      if keyReady
      then Db(kept[id := Session(user, HashOf(token), NoHash, at, at, at + cfg.refreshTtl)], db.lineage[token := id])
      else db.(rows := kept)
    case Refresh(token, locked, at, checks, minted) => AfterRefresh(cfg, db, token, locked, at, checks, minted)
    case Logout(token) => db.(rows := map id | id in db.rows && db.rows[id].hash != HashOf(token) :: db.rows[id])
    case Revoke(user, id) => if id in UserRows(db.rows, user) then db.(rows := db.rows - {id}) else db
    case RemoveAll(user) => db.(rows := db.rows - UserRows(db.rows, user))
    case Purge(at) => db.(rows := map id | id in db.rows && !(db.rows[id].expiresAt < at) :: db.rows[id])
  }

  /** New tokens and ids were never seen before, and evictions follow the
      quota. Nothing else is asked of a step: presented tokens are arbitrary. */
  ghost predicate Enabled(cfg: Config, db: Db, op: Op) {
    match op
    case Issue(user, id, token, victims, _, _) =>
      && token !in db.lineage && id !in db.lineage.Values && id !in db.rows
      && Evicts(db.rows, user, victims) && |victims| == Surplus(cfg, db.rows, user)
    case Refresh(_, _, _, _, minted) => minted !in db.lineage
    case _ => true
  }

  ghost predicate Runs(cfg: Config, db: Db, ops: seq<Op>)
    decreases |ops|
  {
    ops == [] || (Enabled(cfg, db, ops[0]) && Runs(cfg, Next(cfg, db, ops[0]), ops[1..]))
  }

  ghost function After(cfg: Config, db: Db, ops: seq<Op>): Db
    decreases |ops|
  {
    if ops == [] then db else After(cfg, Next(cfg, db, ops[0]), ops[1..])
  }

  /** The tokens a run accepts, in order. */
  ghost function AcceptedTokens(cfg: Config, db: Db, ops: seq<Op>): seq<Token>
    decreases |ops|
  {
    if ops == [] then []
    else (if Accepts(db, ops[0]) then [ops[0].token] else []) + AcceptedTokens(cfg, Next(cfg, db, ops[0]), ops[1..])
  }

  ghost predicate Accepts(db: Db, op: Op) {
    op.Refresh? && ReplyTo(db.rows, op.token, op.locked, op.at, op.checks).Accepted?
  }

  const Empty := Db(map[], map[])

  // ---- Invariants ----

  lemma StepKeepsConsistent(cfg: Config, db: Db, op: Op)
    requires Consistent(db) && Enabled(cfg, db, op)
    ensures Consistent(Next(cfg, db, op))
  {
    var db' := Next(cfg, db, op);
    forall id | id in db'.rows
      ensures
        var s := db'.rows[id];
        && s.hash.HashOf? && s.hash.token in db'.lineage && db'.lineage[s.hash.token] == id
        && s.hash != s.previous
        && (s.previous.HashOf? ==> s.previous.token in db'.lineage && db'.lineage[s.previous.token] == id)
    {
    }
  }

  lemma {:induction false} RunKeepsConsistent(cfg: Config, db: Db, ops: seq<Op>)
    requires Consistent(db) && Runs(cfg, db, ops)
    ensures Consistent(After(cfg, db, ops))
    decreases |ops|
  {
    if ops != [] {
      StepKeepsConsistent(cfg, db, ops[0]);
      RunKeepsConsistent(cfg, Next(cfg, db, ops[0]), ops[1..]);
    }
  }

  // ---- What an eviction takes ----

  lemma WithoutRows(rows: Rows, user: string, gone: set<Id>)
    ensures UserRows(rows - gone, user) == UserRows(rows, user) - gone
  {
  }

  lemma {:induction false} EvictionTakesRows(rows: Rows, user: string, victims: seq<Id>)
    requires Evicts(rows, user, victims)
    ensures SetOf(victims) <= UserRows(rows, user) && |SetOf(victims)| == |victims|
    decreases |victims|
  {
    if victims != [] {
      var v, rest := victims[0], victims[1..];
      EvictionTakesRows(rows - {v}, user, rest);
      WithoutRows(rows, user, {v});
      assert victims == [v] + rest;
      assert SetOf(victims) == {v} + SetOf(rest);
      assert v !in SetOf(rest);
    }
  }
}
