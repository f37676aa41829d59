/** Who may refresh: the outcome of RefreshToken in internal/auth/login_service.go
    read off the rows and the account, and what it does to rows and limiter. */
module RefreshRules {
  import opened Common
  import opened RateLimit
  import opened LoginGate
  import opened SessionTable
  import P = SessionProtocol

  /** The row holds the token and has not expired. */
  ghost predicate Live(rows: Rows, id: Id, token: Token, at: int) {
    Holds(rows, id, token) && at <= rows[id].expiresAt
  }

  /** The user was found and may come in. */
  predicate AccountOpen(checks: P.Checks, at: int) {
    checks.user.Some? && MayEnter(checks.user.value, at)
  }

  /** Some live row of `user` holds the token, its account is open and a key is ready. */
  ghost predicate MayRefresh(rows: Rows, token: Token, at: int, checks: P.Checks, user: string) {
    AccountOpen(checks, at) && checks.keyReady && exists id :: Live(rows, id, token, at) && rows[id].userId == user
  }

  /** Why a refresh that the gate lets through is refused. */
  ghost predicate RefusedFor(reply: P.RefreshReply, rows: Rows, token: Token, at: int, checks: P.Checks) {
    match reply
    case Reused => (forall id :: !Holds(rows, id, token)) && exists id :: Remembers(rows, id, token)
    case Unknown => (forall id :: !Holds(rows, id, token)) && forall id :: !Remembers(rows, id, token)
    case Expired => exists id :: Holds(rows, id, token) && rows[id].expiresAt < at
    case UserLookupFailed => checks.user.None? && exists id :: Live(rows, id, token, at)
    case NoAccess =>
      && checks.user.Some? && checks.user.value.accessExpiresAt.Some? && checks.user.value.accessExpiresAt.value <= at
      && exists id :: Live(rows, id, token, at)
    case Disabled =>
      && checks.user.Some? && !checks.user.value.active && MayEnter(checks.user.value.(active := true), at)
      && exists id :: Live(rows, id, token, at)
    case NoSigningKey => AccountOpen(checks, at) && !checks.keyReady && exists id :: Live(rows, id, token, at)
    case TooManyAttempts | Accepted(_) => false
  }

  lemma OneRowEach(db: Db, token: Token)
    requires Consistent(db)
    ensures forall id :: Holds(db.rows, id, token) ==> CurrentRow(db.rows, token) == Some(id)
    ensures forall id :: Remembers(db.rows, id, token) ==> PreviousRow(db.rows, token) == Some(id)
  {
  }

  /** Who gets a new token. */
  lemma RefreshIsAcceptedIff(db: Db, token: Token, locked: bool, at: int, checks: P.Checks, user: string)
    requires Consistent(db)
    ensures P.ReplyTo(db.rows, token, locked, at, checks) == P.Accepted(user)
       <==> !locked && MayRefresh(db.rows, token, at, checks, user)
  {
    OneRowEach(db, token);
  }

  /** And why everybody else does not. */
  lemma RefreshIsRefusedIff(db: Db, token: Token, locked: bool, at: int, checks: P.Checks, reply: P.RefreshReply)
    requires Consistent(db) && !reply.Accepted?
    ensures P.ReplyTo(db.rows, token, locked, at, checks) == reply
       <==> if locked then reply == P.TooManyAttempts else RefusedFor(reply, db.rows, token, at, checks)
  {
    OneRowEach(db, token);
    var row := CurrentRow(db.rows, token);
    assert row.Some? ==> Live(db.rows, row.value, token, at) || db.rows[row.value].expiresAt < at;
  }

  /** An accepted refresh gives its row the new token, remembers the presented
      one and changes nothing else. A refused one changes no row that stays, and
      ends the session that remembers the token, or that holds it but expired. */
  ghost predicate RowAfter(reply: P.RefreshReply, ttl: int, rows: Rows, rows': Rows, token: Token, at: int, minted: Token, id: Id) {
    if id in rows && reply.Accepted? && Holds(rows, id, token) then
      id in rows' && rows'[id] == Session(rows[id].userId, HashOf(minted), HashOf(token), rows[id].createdAt, at, at + ttl)
    else if (reply.Reused? && Remembers(rows, id, token)) || (reply.Expired? && Holds(rows, id, token)) then id !in rows'
    else Lookup(rows', id) == Lookup(rows, id)
  }

  lemma RefreshReachesRow(cfg: P.Config, db: Db, op: P.Op, id: Id)
    requires Consistent(db) && op.Refresh?
    ensures RowAfter(P.ReplyTo(db.rows, op.token, op.locked, op.at, op.checks), cfg.refreshTtl, db.rows, P.Next(cfg, db, op).rows, op.token, op.at, op.minted, id)
  {
    OneRowEach(db, op.token);
  }

  /** Reply and rows of one step together. */
  lemma RefreshIsRuled(cfg: P.Config, db: Db, op: P.Op)
    requires Consistent(db) && op.Refresh? && !op.locked
    ensures var reply := P.ReplyTo(db.rows, op.token, false, op.at, op.checks);
      && !reply.TooManyAttempts?
      && (forall user :: reply == P.Accepted(user) <==> MayRefresh(db.rows, op.token, op.at, op.checks, user))
      && (reply.Accepted? || RefusedFor(reply, db.rows, op.token, op.at, op.checks))
      && (forall id :: RowAfter(reply, cfg.refreshTtl, db.rows, P.Next(cfg, db, op).rows, op.token, op.at, op.minted, id))
  {
    var reply := P.ReplyTo(db.rows, op.token, false, op.at, op.checks);
    forall user ensures reply == P.Accepted(user) <==> MayRefresh(db.rows, op.token, op.at, op.checks, user) {
      RefreshIsAcceptedIff(db, op.token, false, op.at, op.checks, user);
    }
    if !reply.Accepted? { RefreshIsRefusedIff(db, op.token, false, op.at, op.checks, reply); }
    forall id { RefreshReachesRow(cfg, db, op, id); }
  }

  /** What each reply costs the two keys of the limiter. */
  ghost predicate KeysAfter(reply: P.RefreshReply, p: Policy, m: Table, m': Table, ip: string, token: string, at: int) {
    && OnlyTouches(m, m', RefreshIpKey(ip), RefreshTokenKey(token))
    && (reply.Reused? || reply.Unknown? || reply.Expired? ==>
          CountedOnce(p, m, m', RefreshIpKey(ip), at) && CountedOnce(p, m, m', RefreshTokenKey(token), at))
    && (reply.NoAccess? || reply.Disabled? ==>
          CountedOnce(p, m, m', RefreshIpKey(ip), at) && NotCounted(p, m, m', RefreshTokenKey(token), at))
    && (reply.Accepted? || reply.NoSigningKey? ==> RefreshIpKey(ip) !in m' && RefreshTokenKey(token) !in m')
    && (reply.TooManyAttempts? || reply.UserLookupFailed? ==>
          NotCounted(p, m, m', RefreshIpKey(ip), at) && NotCounted(p, m, m', RefreshTokenKey(token), at))
  }

  lemma RefreshKeysDiffer(ip: string, token: string)
    ensures RefreshIpKey(ip) != RefreshTokenKey(token)
  {
    assert RefreshIpKey(ip)[8] == 'i' && RefreshTokenKey(token)[8] == 't';
  }

  /** The limiter call that a refresh amounts to. */
  function RefreshCall(token: Token, ip: string, at: int, reply: P.RefreshReply): Call {
    Call(RefreshIpKey(ip), RefreshTokenKey(token), at, P.VerdictOf(reply))
  }

  /** A refused gate is answered with TooManyAttempts and nothing else is. */
  lemma RefreshReachesKeys(p: Policy, m: Table, token: Token, ip: string, at: int, reply: P.RefreshReply)
    requires Admitted(p, m, RefreshCall(token, ip, at, reply)) <==> !reply.TooManyAttempts?
    ensures KeysAfter(reply, p, m, Run(p, m, GateOps(p, m, RefreshCall(token, ip, at, reply))), ip, token, at)
    ensures reply.TooManyAttempts? <==> Barred(p, m, RefreshIpKey(ip), at) || Barred(p, m, RefreshTokenKey(token), at)
  {
    var c := RefreshCall(token, ip, at, reply);
    RefreshKeysDiffer(ip, token);
    ChecksCountNothing(p, m, c);
    if Admitted(p, m, c) { OutcomeReachesKeys(p, m, c); } else { GateThenReport(p, m, c); }
  }
}
