/** The services of internal/auth that drive the session protocol: the issuer
    with its eviction loop, RefreshToken, Logout, RevokeSession and the bulk
    removals. Each method is one step of SessionProtocol on its repository. */
module AuthServices {
  import opened Common
  import opened RateLimit
  import opened LoginGate
  import opened SessionTable
  import opened RefreshRules
  import P = SessionProtocol

  class SessionIssuer {
    const sessions: SessionRepository
    const cfg: P.Config

    constructor (sessions: SessionRepository, cfg: P.Config)
      ensures this.sessions == sessions && this.cfg == cfg
    {
      this.sessions, this.cfg := sessions, cfg;
    }

    /** `id` and `token` are the new uuid and random refresh token; `keyReady`
        says whether the keystore and the signature succeed. */
    method Issue(user: string, id: Id, token: Token, at: int, keyReady: bool)
      returns (issued: bool, ghost victims: seq<Id>)
      requires Consistent(sessions.State())
      requires token !in sessions.lineage && id !in sessions.lineage.Values && id !in sessions.rows
      modifies sessions
      ensures issued == keyReady
      ensures P.Enabled(cfg, old(sessions.State()), P.Issue(user, id, token, victims, at, keyReady))
      ensures sessions.State() == P.Next(cfg, old(sessions.State()), P.Issue(user, id, token, victims, at, keyReady))
      ensures Consistent(sessions.State())
    {
      ghost var was := sessions.State();
      victims := [];
      assert was.rows - SetOf([]) == was.rows;
      if cfg.maxSessions > 0 {
        var count := sessions.CountByUser(user);
        while count >= cfg.maxSessions
          invariant sessions.lineage == was.lineage
          invariant P.Evicts(was.rows, user, victims) && sessions.rows == was.rows - SetOf(victims)
          invariant count == |UserRows(sessions.rows, user)|
          invariant |victims| == |UserRows(was.rows, user)| - count
          invariant victims == [] || count >= cfg.maxSessions - 1
          decreases count
        {
          ghost var before := sessions.rows;
          ghost var victim := sessions.DeleteOldestByUser(user);
          EvictOneMore(was.rows, user, victims, victim.value);
          P.WithoutRows(before, user, {victim.value});
          victims := victims + [victim.value];
          count := count - 1;
        }
      }
      P.EvictionTakesRows(was.rows, user, victims);
      P.StepKeepsConsistent(cfg, was, P.Issue(user, id, token, victims, at, keyReady));
      if !keyReady {
        return false, victims;
      }
      sessions.Create(id, Session(user, HashOf(token), NoHash, at, at, at + cfg.refreshTtl));
      return true, victims;
    }
  }

  lemma {:induction false} EvictOneMore(rows: Rows, user: string, victims: seq<Id>, next: Id)
    requires P.Evicts(rows, user, victims) && LeastActive(rows - SetOf(victims), user, next)
    ensures P.Evicts(rows, user, victims + [next])
    ensures rows - SetOf(victims + [next]) == rows - SetOf(victims) - {next}
    decreases |victims|
  {
    assert SetOf(victims + [next]) == SetOf(victims) + {next};
    if victims == [] {
      assert rows - SetOf(victims) == rows;
      assert (victims + [next])[1..] == [];
    } else {
      var v := victims[0];
      assert victims == [v] + victims[1..];
      assert SetOf(victims) == {v} + SetOf(victims[1..]);
      assert rows - {v} - SetOf(victims[1..]) == rows - SetOf(victims);
      assert (victims + [next])[0] == v && (victims + [next])[1..] == victims[1..] + [next];
      EvictOneMore(rows - {v}, user, victims[1..], next);
    }
  }

  class LoginService {
    const sessions: SessionRepository
    const limiter: LoginRateLimiter
    const cfg: P.Config

    constructor (sessions: SessionRepository, limiter: LoginRateLimiter, cfg: P.Config)
      ensures this.sessions == sessions && this.limiter == limiter && this.cfg == cfg
    {
      this.sessions, this.limiter, this.cfg := sessions, limiter, cfg;
    }

    /** `minted` is the new random token a successful rotation stores. The
        client sees the same error for Reused and Unknown. The source reports to
        the limiter inside each branch; the two tables are independent, so here
        the row work of all branches is one method and the report follows it. */
    method RefreshToken(token: Token, ip: string, at: int, checks: P.Checks, minted: Token) returns (reply: P.RefreshReply)
      requires limiter.Valid() && Consistent(sessions.State()) && minted !in sessions.lineage
      modifies limiter, limiter.attempts.Values, sessions
      ensures limiter.Valid() && Consistent(sessions.State())
      ensures var locked := !Admitted(limiter.policy, old(limiter.Contents()), RefreshCall(token, ip, at, reply));
        && reply == P.ReplyTo(old(sessions.rows), token, locked, at, checks)
        && sessions.State() == P.Next(cfg, old(sessions.State()), P.Refresh(token, locked, at, checks, minted))
      ensures limiter.Contents() == Run(limiter.policy, old(limiter.Contents()),
                                        GateOps(limiter.policy, old(limiter.Contents()), RefreshCall(token, ip, at, reply)))
      ensures reply.TooManyAttempts? <==>
                Barred(limiter.policy, old(limiter.Contents()), RefreshIpKey(ip), at) || Barred(limiter.policy, old(limiter.Contents()), RefreshTokenKey(token), at)
      ensures forall user :: reply == P.Accepted(user) <==> !reply.TooManyAttempts? && MayRefresh(old(sessions.rows), token, at, checks, user)
      ensures reply.TooManyAttempts? || reply.Accepted? || RefusedFor(reply, old(sessions.rows), token, at, checks)
      ensures forall id :: RowAfter(reply, cfg.refreshTtl, old(sessions.rows), sessions.rows, token, at, minted, id)
      ensures KeysAfter(reply, limiter.policy, old(limiter.Contents()), limiter.Contents(), ip, token, at)
    {
      ghost var m := limiter.Contents();
      var call := RefreshCall(token, ip, at, P.TooManyAttempts);
      var ok := Admit(limiter, call.first, call.second, at);
      if !ok {
        GateThenReport(limiter.policy, m, call);
        RefreshReachesKeys(limiter.policy, m, token, ip, at, P.TooManyAttempts);
        return P.TooManyAttempts;
      }
      reply := Exchange(token, at, checks, minted);
      RefreshReachesKeys(limiter.policy, m, token, ip, at, reply);
      Settle(limiter, RefreshCall(token, ip, at, reply), m);
    }

    /** A refresh past the gate, as far as the sessions table is concerned. */
    method Exchange(token: Token, at: int, checks: P.Checks, minted: Token) returns (reply: P.RefreshReply)
      requires Consistent(sessions.State()) && minted !in sessions.lineage
      modifies sessions
      ensures Consistent(sessions.State())
      ensures reply == P.ReplyTo(old(sessions.rows), token, false, at, checks)
      ensures sessions.State() == P.Next(cfg, old(sessions.State()), P.Refresh(token, false, at, checks, minted))
      ensures !reply.TooManyAttempts?
      ensures forall user :: reply == P.Accepted(user) <==> MayRefresh(old(sessions.rows), token, at, checks, user)
      ensures reply.Accepted? || RefusedFor(reply, old(sessions.rows), token, at, checks)
      ensures forall id :: RowAfter(reply, cfg.refreshTtl, old(sessions.rows), sessions.rows, token, at, minted, id)
    {
      P.StepKeepsConsistent(cfg, sessions.State(), P.Refresh(token, false, at, checks, minted));
      RefreshIsRuled(cfg, sessions.State(), P.Refresh(token, false, at, checks, minted));
      var found := sessions.GetByRefreshTokenHash(HashOf(token));
      if found.None? {
        assert forall id :: !Holds(sessions.rows, id, token);
        reply := RefuseUnmatched(token);
        return;
      }
      var id := found.value;
      assert CurrentRow(sessions.rows, token) == Some(id) by { assert Holds(sessions.rows, id, token); }
      var session := sessions.rows[id];
      if at > session.expiresAt {
        sessions.DeleteByID(id);
        return P.Expired;
      }
      if checks.user.None? {
        return P.UserLookupFailed;
      }
      var user := checks.user.value;
      if user.accessExpiresAt.Some? && !(user.accessExpiresAt.value > at) {
        return P.NoAccess;
      }
      if !user.active {
        return P.Disabled;
      }
      if !checks.keyReady {
        return P.NoSigningKey;
      }
      sessions.RotateRefreshToken(id, minted, at, at + cfg.refreshTtl);
      return P.Accepted(session.userId);
    }

    /** A token that no row holds: reuse of a remembered one ends its session. */
    method RefuseUnmatched(token: Token) returns (reply: P.RefreshReply)
      requires CurrentRow(sessions.rows, token).None? && Consistent(sessions.State())
      modifies sessions
      ensures sessions.lineage == old(sessions.lineage)
      ensures var reused := PreviousRow(old(sessions.rows), token);
        && reply == (if reused.Some? then P.Reused else P.Unknown)
        && sessions.rows == old(sessions.rows) - (if reused.Some? then {reused.value} else {})
    {
      var reused := sessions.GetByPreviousRefreshTokenHash(HashOf(token));
      if reused.Some? {
        assert Remembers(sessions.rows, reused.value, token);
        sessions.DeleteByID(reused.value);
        return P.Reused;
      }
      assert forall id :: !Remembers(sessions.rows, id, token);
      return P.Unknown;
    }
  }

  datatype LoggedOut = LoggedOut(userId: string, sessionId: Id)

  class SessionService {
    const sessions: SessionRepository
    const cfg: P.Config

    constructor (sessions: SessionRepository, cfg: P.Config)
      ensures this.sessions == sessions && this.cfg == cfg
    {
      this.sessions, this.cfg := sessions, cfg;
    }

    /** The published event names the session that the token belonged to. */
    method Logout(token: Token) returns (published: Option<LoggedOut>)
      requires Consistent(sessions.State())
      modifies sessions
      ensures Consistent(sessions.State())
      ensures sessions.State() == P.Next(cfg, old(sessions.State()), P.Logout(token))
      ensures published.None? <==> CurrentRow(old(sessions.rows), token).None?
      ensures published.Some? ==> CurrentRow(old(sessions.rows), token) == Some(published.value.sessionId)
                                  && old(sessions.rows)[published.value.sessionId].userId == published.value.userId
    {
      P.StepKeepsConsistent(cfg, sessions.State(), P.Logout(token));
      var found := sessions.GetByRefreshTokenHash(HashOf(token));
      var event := if found.Some? then Some(LoggedOut(sessions.rows[found.value].userId, found.value)) else None;
      assert found.Some? ==> Holds(sessions.rows, found.value, token);
      assert found.None? ==> forall id :: !Holds(sessions.rows, id, token);
      sessions.DeleteByRefreshTokenHash(HashOf(token));
      return event;
    }

    /** A session of somebody else is reported as missing. */
    method RevokeSession(user: string, id: Id) returns (ok: bool)
      requires Consistent(sessions.State())
      modifies sessions
      ensures Consistent(sessions.State())
      ensures ok == (id in UserRows(old(sessions.rows), user))
      ensures sessions.State() == P.Next(cfg, old(sessions.State()), P.Revoke(user, id))
    {
      P.StepKeepsConsistent(cfg, sessions.State(), P.Revoke(user, id));
      if id !in sessions.rows {
        return false;
      }
      if sessions.rows[id].userId != user {
        return false;
      }
      sessions.DeleteByID(id);
      return true;
    }

    /** InvalidateUserSessions, and what ResetPassword does to the table. */
    method InvalidateUserSessions(user: string)
      requires Consistent(sessions.State())
      modifies sessions
      ensures Consistent(sessions.State())
      ensures sessions.State() == P.Next(cfg, old(sessions.State()), P.RemoveAll(user))
    {
      P.StepKeepsConsistent(cfg, sessions.State(), P.RemoveAll(user));
      sessions.DeleteAllByUser(user);
    }

    method CleanExpired(now: int)
      requires Consistent(sessions.State())
      modifies sessions
      ensures Consistent(sessions.State())
      ensures sessions.State() == P.Next(cfg, old(sessions.State()), P.Purge(now))
    {
      P.StepKeepsConsistent(cfg, sessions.State(), P.Purge(now));
      sessions.DeleteExpired(now);
    }
  }
}
