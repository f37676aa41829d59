/** How internal/auth/login_service.go and profile_service.go put the limiter in
    front of a credential check: two keys are tested, and only when neither is
    locked does the outcome of the check reach the limiter. */
module LoginGate {
  import opened Common
  import opened RateLimit

  /** What the outcome of the credential check does to the two keys. */
  datatype Verdict = Clear | PenaliseBoth | PenaliseFirst | Leave

  datatype Call = Call(first: string, second: string, at: int, verdict: Verdict)

  predicate Admitted(p: Policy, m: Table, c: Call) {
    !Locked(p, m, c.first, c.at) && !Locked(p, AfterCheck(p, m, c.first, c.at), c.second, c.at)
  }

  function VerdictOps(c: Call): seq<Op> {
    match c.verdict
    case Clear => [Success(c.first, c.at), Success(c.second, c.at)]
    case PenaliseBoth => [Fail(c.first, c.at), Fail(c.second, c.at)]
    case PenaliseFirst => [Fail(c.first, c.at)]
    case Leave => []
  }

  /** The limiter calls one gated request makes, in order. */
  function GateOps(p: Policy, m: Table, c: Call): seq<Op> {
    if Locked(p, m, c.first, c.at) then [Check(c.first, c.at)]
    else [Check(c.first, c.at), Check(c.second, c.at)] + if Admitted(p, m, c) then VerdictOps(c) else []
  }

  function AllOps(p: Policy, m: Table, calls: seq<Call>): seq<Op>
    decreases |calls|
  {
    if calls == [] then []
    else GateOps(p, m, calls[0]) + AllOps(p, Run(p, m, GateOps(p, m, calls[0])), calls[1..])
  }

  predicate CallsOrdered(calls: seq<Call>, clock: int) {
    calls == [] || (clock <= calls[0].at && calls[0].first != calls[0].second && CallsOrdered(calls[1..], calls[0].at))
  }

  lemma RunPair(p: Policy, m: Table, a: Op, b: Op)
    ensures Run(p, m, [a]) == Next(p, m, a)
    ensures Run(p, m, [a, b]) == Next(p, Next(p, m, a), b)
  {
    assert [a, b][1..] == [b] && [b][1..] == [] && [a][1..] == [];
    assert Run(p, Next(p, m, a), [b]) == Run(p, Next(p, Next(p, m, a), b), []);
  }

  // ---- The gate as methods over the limiter ----

  /** `isLocked(first) || isLocked(second)`: the second key is not consulted
      when the first is locked. */
  method Admit(limiter: LoginRateLimiter, first: string, second: string, at: int) returns (ok: bool)
    requires limiter.Valid()
    modifies limiter
    ensures limiter.Valid() && limiter.attempts.Values <= old(limiter.attempts.Values)
    ensures ok == Admitted(limiter.policy, old(limiter.Contents()), Call(first, second, at, Leave))
    ensures limiter.Contents() == Run(limiter.policy, old(limiter.Contents()),
                                      GateOps(limiter.policy, old(limiter.Contents()), Call(first, second, at, Leave)))
  {
    ghost var m := limiter.Contents();
    ghost var p := limiter.policy;
    var locked := limiter.IsLocked(first, at);
    assert Run(p, m, [Check(first, at)]) == limiter.Contents();
    if locked { return false; }
    locked := limiter.IsLocked(second, at);
    RunPair(p, m, Check(first, at), Check(second, at));
    assert GateOps(p, m, Call(first, second, at, Leave)) == [Check(first, at), Check(second, at)];
    return !locked;
  }

  method Report(limiter: LoginRateLimiter, c: Call)
    requires limiter.Valid()
    modifies limiter, limiter.attempts.Values
    ensures limiter.Valid() && fresh(limiter.attempts.Values - old(limiter.attempts.Values))
    ensures limiter.Contents() == Run(limiter.policy, old(limiter.Contents()), VerdictOps(c))
  {
    ghost var p, m := limiter.policy, limiter.Contents();
    RunPair(p, m, Success(c.first, c.at), Success(c.second, c.at));
    RunPair(p, m, Fail(c.first, c.at), Fail(c.second, c.at));
    match c.verdict {
      case Clear =>
        limiter.RecordSuccess(c.first);
        limiter.RecordSuccess(c.second);
      case PenaliseBoth =>
        var _ := limiter.RecordFailure(c.first, c.at);
        var _ := limiter.RecordFailure(c.second, c.at);
      case PenaliseFirst =>
        var _ := limiter.RecordFailure(c.first, c.at);
      case Leave =>
    }
  }

  /** Testing the keys and then reporting makes exactly the calls of GateOps. */
  lemma GateThenReport(p: Policy, m: Table, c: Call)
    ensures Admitted(p, m, c) ==>
              Run(p, m, GateOps(p, m, c)) == Run(p, Run(p, m, GateOps(p, m, c.(verdict := Leave))), VerdictOps(c))
    ensures !Admitted(p, m, c) ==> GateOps(p, m, c) == GateOps(p, m, c.(verdict := Leave))
  {
    if Admitted(p, m, c) {
      var checks := [Check(c.first, c.at), Check(c.second, c.at)];
      assert GateOps(p, m, c.(verdict := Leave)) == checks;
      RunAppend(p, m, checks, VerdictOps(c));
    }
  }

  /** Reports the outcome of a request that was admitted on table `m`. */
  method Settle(limiter: LoginRateLimiter, c: Call, ghost m: Table)
    requires limiter.Valid() && Admitted(limiter.policy, m, c)
    requires limiter.Contents() == Run(limiter.policy, m, GateOps(limiter.policy, m, c.(verdict := Leave)))
    modifies limiter, limiter.attempts.Values
    ensures limiter.Valid() && fresh(limiter.attempts.Values - old(limiter.attempts.Values))
    ensures limiter.Contents() == Run(limiter.policy, m, GateOps(limiter.policy, m, c))
  {
    GateThenReport(limiter.policy, m, c);
    Report(limiter, c);
  }

  // ---- What a gated request does to a key, said on the records ----

  /** A lock of the key is in force. */
  predicate Barred(p: Policy, m: Table, key: string, now: int) {
    var rec := Running(p, m, key, now);
    rec.Some? && rec.value.lockedUntil.Some? && now < rec.value.lockedUntil.value
  }

  /** One failure more in the record the key still has, or the first of a new one. */
  ghost predicate CountedOnce(p: Policy, m: Table, m': Table, key: string, now: int) {
    var rec := Running(p, m, key, now);
    && key in m'
    && m'[key].failures == (if rec.Some? then rec.value.failures else 0) + 1
    && m'[key].firstFail == (if rec.Some? then rec.value.firstFail else now)
    && (m'[key].failures >= p.maxFails ==> m'[key].lockedUntil == Some(now + p.lockout))
    && (m'[key].failures < p.maxFails ==> m'[key].lockedUntil == if rec.Some? then rec.value.lockedUntil else None)
  }

  /** Nothing but a record that had run out is gone. */
  ghost predicate NotCounted(p: Policy, m: Table, m': Table, key: string, now: int) {
    Lookup(m', key) == Lookup(m, key) || (key !in m' && Running(p, m, key, now).None?)
  }

  ghost predicate OnlyTouches(m: Table, m': Table, a: string, b: string) {
    forall key :: key != a && key != b ==> Lookup(m', key) == Lookup(m, key)
  }

  lemma BarredIffLocked(p: Policy, m: Table, key: string, now: int)
    ensures Barred(p, m, key, now) == Locked(p, m, key, now)
    ensures NotCounted(p, m, AfterCheck(p, m, key, now), key, now)
    ensures CountedOnce(p, m, AfterFail(p, AfterCheck(p, m, key, now), key, now), key, now)
  {
  }

  /** Each of two checks and two failures on different keys acts on its own key. */
  lemma ChecksCountNothing(p: Policy, m: Table, c: Call)
    requires c.first != c.second
    ensures var m' := Run(p, m, GateOps(p, m, c.(verdict := Leave)));
      && NotCounted(p, m, m', c.first, c.at) && NotCounted(p, m, m', c.second, c.at)
      && OnlyTouches(m, m', c.first, c.second)
    ensures Admitted(p, m, c) <==> !Barred(p, m, c.first, c.at) && !Barred(p, m, c.second, c.at)
  {
    RunPair(p, m, Check(c.first, c.at), Check(c.second, c.at));
    var ops := GateOps(p, m, c.(verdict := Leave));
    assert ops == [Check(c.first, c.at)] || ops == [Check(c.first, c.at), Check(c.second, c.at)];
  }

  lemma PassedChecks(p: Policy, m: Table, c: Call) returns (m1: Table)
    requires c.first != c.second && Admitted(p, m, c)
    ensures m1 == AfterCheck(p, AfterCheck(p, m, c.first, c.at), c.second, c.at)
    ensures Run(p, m, GateOps(p, m, c)) == Run(p, m1, VerdictOps(c))
    ensures Lookup(m1, c.first) == Lookup(AfterCheck(p, m, c.first, c.at), c.first)
    ensures Lookup(m1, c.second) == Lookup(AfterCheck(p, m, c.second, c.at), c.second)
    ensures OnlyTouches(m, m1, c.first, c.second)
  {
    GateThenReport(p, m, c);
    RunPair(p, m, Check(c.first, c.at), Check(c.second, c.at));
    m1 := AfterCheck(p, AfterCheck(p, m, c.first, c.at), c.second, c.at);
  }

  lemma FailAfterCheck(p: Policy, m: Table, m1: Table, key: string, now: int)
    requires Lookup(m1, key) == Lookup(AfterCheck(p, m, key, now), key)
    ensures CountedOnce(p, m, AfterFail(p, m1, key, now), key, now)
    ensures forall other :: other != key ==> Lookup(AfterFail(p, m1, key, now), other) == Lookup(m1, other)
  {
  }

  lemma CountKeeps(p: Policy, m: Table, m1: Table, m2: Table, key: string, now: int)
    requires CountedOnce(p, m, m1, key, now) && Lookup(m2, key) == Lookup(m1, key)
    ensures CountedOnce(p, m, m2, key, now)
  {
  }

  /** What a request that is let through does, by its outcome. */
  lemma OutcomeReachesKeys(p: Policy, m: Table, c: Call)
    requires c.first != c.second && Admitted(p, m, c)
    ensures var m' := Run(p, m, GateOps(p, m, c));
      && OnlyTouches(m, m', c.first, c.second)
      && (c.verdict.PenaliseBoth? ==> CountedOnce(p, m, m', c.first, c.at) && CountedOnce(p, m, m', c.second, c.at))
      && (c.verdict.PenaliseFirst? ==> CountedOnce(p, m, m', c.first, c.at) && NotCounted(p, m, m', c.second, c.at))
      && (c.verdict.Clear? ==> c.first !in m' && c.second !in m')
  {
    var m1 := PassedChecks(p, m, c);
    match c.verdict {
      case Clear =>
        RunPair(p, m1, Success(c.first, c.at), Success(c.second, c.at));
      case PenaliseBoth =>
        RunPair(p, m1, Fail(c.first, c.at), Fail(c.second, c.at));
        var m2 := AfterFail(p, m1, c.first, c.at);
        FailAfterCheck(p, m, m1, c.first, c.at);
        FailAfterCheck(p, m, m2, c.second, c.at);
        CountKeeps(p, m, m2, AfterFail(p, m2, c.second, c.at), c.first, c.at);
      case PenaliseFirst =>
        RunPair(p, m1, Fail(c.first, c.at), Fail(c.first, c.at));
        FailAfterCheck(p, m, m1, c.first, c.at);
      case Leave =>
        ChecksCountNothing(p, m, c);
    }
  }

  // ---- Login ----

  datatype User = User(id: string, active: bool, accessExpiresAt: Option<int>)

  /** What the user lookup of a login found; `passwordOk` is the bcrypt answer. */
  datatype Found = NoSuchUser | LookupFailed | Account(user: User, passwordOk: bool)

  datatype LoginResult =
    | RateLimited | InvalidPassword | LookupError | AccessExpired | AccountDisabled | LoggedIn(user: User)

  predicate WindowClosed(u: User, now: int) {
    u.accessExpiresAt.Some? && u.accessExpiresAt.value <= now
  }

  function LoginVerdict(found: Found, now: int): Verdict {
    match found
    case NoSuchUser => PenaliseBoth
    case LookupFailed => Leave
    case Account(u, ok) => if WindowClosed(u, now) || !u.active then Leave else if ok then Clear else PenaliseBoth
  }

  function UserKey(username: string, ip: string): string { "user:" + username + "@" + ip }
  function IpKey(ip: string): string { "ip:" + ip }

  function RefreshIpKey(ip: string): string { "refresh:ip:" + ip }
  function RefreshTokenKey(tokenHash: string): string { "refresh:tok:" + tokenHash }

  function LoginCall(username: string, ip: string, found: Found, now: int): Call {
    Call(UserKey(username, ip), IpKey(ip), now, LoginVerdict(found, now))
  }

  lemma LoginKeysDiffer(username: string, ip: string)
    ensures UserKey(username, ip) != IpKey(ip)
  {
    assert UserKey(username, ip)[0] == 'u' && IpKey(ip)[0] == 'i';
  }

  /** A request that got through was penalised on both keys or cleared both, and
      any other, or one without a verdict, counted nothing. */
  ghost predicate Reached(p: Policy, m: Table, m': Table, a: string, b: string, now: int, through: bool, verdict: Verdict) {
    forall key :: key == a || key == b ==>
      && (through && verdict.PenaliseBoth? ==> CountedOnce(p, m, m', key, now))
      && (through && verdict.Clear? ==> key !in m')
      && (!through || verdict.Leave? ==> NotCounted(p, m, m', key, now))
  }

  lemma LoginReachesKeys(p: Policy, m: Table, username: string, ip: string, found: Found, now: int)
    ensures var c := LoginCall(username, ip, found, now); var m' := Run(p, m, GateOps(p, m, c));
      && (Admitted(p, m, c) <==> !Barred(p, m, c.first, now) && !Barred(p, m, c.second, now))
      && OnlyTouches(m, m', c.first, c.second)
      && Reached(p, m, m', c.first, c.second, now, Admitted(p, m, c), c.verdict)
  {
    var c := LoginCall(username, ip, found, now);
    LoginKeysDiffer(username, ip);
    GateThenReport(p, m, c);
    ChecksCountNothing(p, m, c);
    if Admitted(p, m, c) { OutcomeReachesKeys(p, m, c); }
  }

  /** The account is on, and its access has no deadline or one still to come. */
  predicate MayEnter(u: User, now: int) {
    u.active && (u.accessExpiresAt.Some? ==> now < u.accessExpiresAt.value)
  }

  /** Login up to the point where a session is issued. */
  method Login(limiter: LoginRateLimiter, username: string, ip: string, found: Found, now: int) returns (r: LoginResult)
    requires limiter.Valid()
    modifies limiter, limiter.attempts.Values
    ensures limiter.Valid() && fresh(limiter.attempts.Values - old(limiter.attempts.Values))
    ensures limiter.Contents() == Run(limiter.policy, old(limiter.Contents()),
                                      GateOps(limiter.policy, old(limiter.Contents()), LoginCall(username, ip, found, now)))
    ensures r.RateLimited? <==>
              Barred(limiter.policy, old(limiter.Contents()), UserKey(username, ip), now) || Barred(limiter.policy, old(limiter.Contents()), IpKey(ip), now)
    ensures r.LoggedIn? <==> !r.RateLimited? && found.Account? && MayEnter(found.user, now) && found.passwordOk
    ensures r.InvalidPassword? <==>
              !r.RateLimited? && (found.NoSuchUser? || (found.Account? && MayEnter(found.user, now) && !found.passwordOk))
    ensures r.LookupError? <==> !r.RateLimited? && found.LookupFailed?
    ensures r.AccountDisabled? <==> !r.RateLimited? && found.Account? && !found.user.active && MayEnter(found.user.(active := true), now)
    ensures r.LoggedIn? ==> r.user == found.user
    ensures OnlyTouches(old(limiter.Contents()), limiter.Contents(), UserKey(username, ip), IpKey(ip))
    ensures forall key :: key == UserKey(username, ip) || key == IpKey(ip) ==>
              && (r.InvalidPassword? ==> CountedOnce(limiter.policy, old(limiter.Contents()), limiter.Contents(), key, now))
              && (r.LoggedIn? ==> key !in limiter.Contents())
              && (!r.InvalidPassword? && !r.LoggedIn? ==> NotCounted(limiter.policy, old(limiter.Contents()), limiter.Contents(), key, now))
  {
    var call := LoginCall(username, ip, found, now);
    ghost var p, m := limiter.policy, limiter.Contents();
    GateThenReport(p, m, call);
    LoginReachesKeys(p, m, username, ip, found, now);
    var ok := Admit(limiter, call.first, call.second, now);
    if !ok { return RateLimited; }
    match found {
      case NoSuchUser =>
        Report(limiter, call);
        return InvalidPassword;
      case LookupFailed =>
        return LookupError;
      case Account(user, passwordOk) =>
        if user.accessExpiresAt.Some? && !(user.accessExpiresAt.value > now) {
          return AccessExpired;
        }
        if !user.active {
          return AccountDisabled;
        }
        Report(limiter, call);
        return if passwordOk then LoggedIn(user) else InvalidPassword;
    }
  }

  // ---- Every sequence of gated requests is a gated run ----

  lemma GatedPair(p: Policy, m: Table, granted: map<string, int>, clock: int, a: Op, b: Op, rest: seq<Op>)
    requires clock <= a.at == b.at
    requires a.Fail? ==> a.key in granted && granted[a.key] == a.at
    requires b.Fail? ==> var g := Grants(p, m, granted, a); b.key in g && g[b.key] == b.at
    requires Gated(p, Next(p, Next(p, m, a), b), Grants(p, Next(p, m, a), Grants(p, m, granted, a), b), b.at, rest)
    ensures Gated(p, m, granted, clock, [a, b] + rest)
  {
    var ops := [a, b] + rest;
    assert ops[1..] == [b] + rest && ([b] + rest)[1..] == rest;
    assert Gated(p, Next(p, m, a), Grants(p, m, granted, a), a.at, [b] + rest);
  }

  lemma GateOpsGated(p: Policy, m: Table, granted: map<string, int>, clock: int, c: Call)
    requires clock <= c.at && c.first != c.second
    ensures Gated(p, m, granted, clock, GateOps(p, m, c))
  {
    var a, b := Check(c.first, c.at), Check(c.second, c.at);
    if Locked(p, m, c.first, c.at) {
      assert [a][1..] == [];
    } else {
      var rest := if Admitted(p, m, c) then VerdictOps(c) else [];
      var m1 := Next(p, m, a);
      var m2, g2 := Next(p, m1, b), Grants(p, m1, Grants(p, m, granted, a), b);
      if |rest| == 2 {
        GatedPair(p, m2, g2, c.at, rest[0], rest[1], []);
        assert [rest[0], rest[1]] + [] == rest;
      } else if |rest| == 1 {
        assert rest[1..] == [];
      }
      GatedPair(p, m, granted, clock, a, b, rest);
    }
  }

  lemma GateThenTail(p: Policy, m: Table, granted: map<string, int>, clock: int, c: Call, tail: seq<Op>)
    requires clock <= c.at && c.first != c.second
    requires forall g: map<string, int> :: Gated(p, Run(p, m, GateOps(p, m, c)), g, c.at, tail)
    ensures Gated(p, m, granted, clock, GateOps(p, m, c) + tail)
  {
    var ops := GateOps(p, m, c);
    GateOpsGated(p, m, granted, clock, c);
    GatedByParts(p, m, granted, clock, c.at, ops, tail);
  }

  lemma {:induction false} GatedByParts(
    p: Policy, m: Table, granted: map<string, int>, clock: int, end: int, a: seq<Op>, b: seq<Op>)
    requires Gated(p, m, granted, clock, a)
    requires if a == [] then clock <= end else a[|a| - 1].at == end
    requires forall g: map<string, int> :: Gated(p, Run(p, m, a), g, end, b)
    ensures Gated(p, m, granted, clock, a + b)
    decreases |a|
  {
    if a == [] {
      assert a + b == b && Gated(p, Run(p, m, a), granted, end, b);
      Earlier(p, m, granted, clock, end, b);
    } else {
      assert (a + b)[0] == a[0] && (a + b)[1..] == a[1..] + b;
      if |a| > 1 { assert a[1..][|a| - 2] == a[|a| - 1]; }
      assert Run(p, m, a) == Run(p, Next(p, m, a[0]), a[1..]);
      GatedByParts(p, Next(p, m, a[0]), Grants(p, m, granted, a[0]), a[0].at, end, a[1..], b);
    }
  }

  lemma Earlier(p: Policy, m: Table, granted: map<string, int>, clock: int, later: int, ops: seq<Op>)
    requires clock <= later && Gated(p, m, granted, later, ops)
    ensures Gated(p, m, granted, clock, ops)
  {
  }

  lemma {:induction false} CallsAreGated(p: Policy, m: Table, granted: map<string, int>, clock: int, calls: seq<Call>)
    requires CallsOrdered(calls, clock)
    ensures Gated(p, m, granted, clock, AllOps(p, m, calls))
    decreases |calls|
  {
    if calls != [] {
      var c := calls[0];
      var m' := Run(p, m, GateOps(p, m, c));
      forall g: map<string, int> ensures Gated(p, m', g, c.at, AllOps(p, m', calls[1..])) {
        CallsAreGated(p, m', g, c.at, calls[1..]);
      }
      GateThenTail(p, m, granted, clock, c, AllOps(p, m', calls[1..]));
    }
  }

  /** The bound of the limiter, for the requests themselves: over any sequence
      of gated requests, none of which clears `key`, the penalties given to
      `key` between `from` and `to` are bounded whatever keys, outcomes and
      interleaving the requests have. */
  lemma PenaltiesAreBounded(p: Policy, m: Table, key: string, from: int, to: int, clock: int, calls: seq<Call>)
    requires Sound(p) && key !in m && from <= to && CallsOrdered(calls, clock)
    requires FailuresWithin(AllOps(p, m, calls), key, from, to)
    ensures Failures(AllOps(p, m, calls), key) * Min(p.window, p.lockout)
         <= (p.maxFails + 1) * (to - from + Min(p.window, p.lockout))
  {
    CallsAreGated(p, m, map[], clock, calls);
    FailuresAreBounded(p, m, key, from, to, clock, AllOps(p, m, calls));
  }
}
