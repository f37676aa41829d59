/** The device authorization grant (RFC 8628) of internal/auth/device.go over
    the table of internal/db/device_code_repository.go. */
module DeviceGrant {
  import opened Common
  import opened LoginGate
  import opened UserCode

  type Code = string

  const Second := 1_000_000_000
  const DeviceCodeTtl := 600 * Second
  const MinPollGap := 4 * Second

  datatype Row = Row(
    userCode: string, userId: Option<string>, expiresAt: int, consumedAt: Option<int>, lastPolledAt: Option<int>)

  type Rows = map<Code, Row>

  /** UNIQUE (user_code). */
  ghost predicate UserCodesUnique(rows: Rows) {
    forall a, b :: a in rows && b in rows && rows[a].userCode == rows[b].userCode ==> a == b
  }

  ghost predicate HasUserCode(rows: Rows, code: Code, userCode: string) {
    code in rows && rows[code].userCode == userCode
  }

  ghost function ByUserCode(rows: Rows, userCode: string): (o: Option<Code>)
    ensures o.Some? ==> HasUserCode(rows, o.value, userCode)
    ensures o.None? ==> forall code :: !HasUserCode(rows, code, userCode)
  {
    if exists code :: HasUserCode(rows, code, userCode)
    then var code :| HasUserCode(rows, code, userCode); Some(code)
    else None
  }

  // ---- Steps ----

  /** Every row, the user each code was first bound to, when each code ever
      started expires, and the tokens issued so far. */
  datatype World = World(rows: Rows, bound: map<Code, string>, expiry: map<Code, int>, grants: seq<Grant>)

  datatype Grant = Grant(code: Code, user: string, at: int)

  datatype Op =
    | Start(code: Code, userCode: string, at: int)
    | Approve(typed: string, user: string, account: Option<User>, at: int)
    | Poll(code: Code, account: Option<User>, sessionOk: bool, at: int)
    | Sweep(olderThan: int, at: int)

  datatype ApproveReply = NoSuchCode | CodeExpired | AlreadyApproved | Conflict | UserMissing | UserNoAccess | UserDisabled | Approved

  predicate Succeeds(r: ApproveReply) { r == Approved || r == AlreadyApproved }

  datatype PollReply =
    | NotFound | Expired | SlowDown | Pending | NoUser | NoAccess | Disabled | SessionFailed | Token(user: string)

  ghost function ApproveReplyOf(rows: Rows, typed: string, user: string, account: Option<User>, at: int): ApproveReply {
    match ByUserCode(rows, CanonicalUserCode(typed))
    case None => NoSuchCode
    case Some(code) =>
      var row := rows[code];
      if at > row.expiresAt then CodeExpired
      else if row.userId.Some? then (if row.userId.value == user then AlreadyApproved else Conflict)
      else if account.None? then UserMissing
      else if WindowClosed(account.value, at) then UserNoAccess
      else if !account.value.active then UserDisabled
      else Approved
  }

  /** The guarded UPDATE: only pending codes strictly before their expiry. */
  function Bound(rows: Rows, userCode: string, user: string, at: int): Rows {
    map code | code in rows ::
      if rows[code].userCode == userCode && rows[code].userId.None? && rows[code].expiresAt > at
      then rows[code].(userId := Some(user)) else rows[code]
  }

  function PollReplyOf(rows: Rows, code: Code, account: Option<User>, sessionOk: bool, at: int): PollReply {
    if code !in rows then NotFound
    else
      var row := rows[code];
      if at > row.expiresAt || row.consumedAt.Some? then Expired
      else if row.lastPolledAt.Some? && at - row.lastPolledAt.value < MinPollGap then SlowDown
      else if row.userId.None? then Pending
      else if account.None? then NoUser
      else if WindowClosed(account.value, at) then NoAccess
      else if !account.value.active then Disabled
      else if !sessionOk then SessionFailed
      else Token(row.userId.value)
  }

  function AfterPoll(rows: Rows, code: Code, account: Option<User>, sessionOk: bool, at: int): Rows {
    match PollReplyOf(rows, code, account, sessionOk, at)
    case NotFound | Expired => rows
    case Token(_) => rows[code := rows[code].(lastPolledAt := Some(at), consumedAt := Some(at))]
    case _ => rows[code := rows[code].(lastPolledAt := Some(at))]
  }

  function Swept(rows: Rows, olderThan: int): Rows {
    map code | code in rows && !(rows[code].expiresAt < olderThan || rows[code].consumedAt.Some?) :: rows[code]
  }

  function NewRow(userCode: string, at: int): Row {
    Row(userCode, None, at + DeviceCodeTtl, None, None)
  }

  /** Inserting a user code that is taken violates UNIQUE and changes nothing. */
  ghost predicate Taken(rows: Rows, userCode: string) {
    exists code :: HasUserCode(rows, code, userCode)
  }

  ghost function NextRows(rows: Rows, op: Op): Rows {
    match op
    case Start(code, userCode, at) => if Taken(rows, userCode) then rows else rows[code := NewRow(userCode, at)]
    case Approve(typed, user, account, at) =>
      if ApproveReplyOf(rows, typed, user, account, at) == Approved
      then Bound(rows, CanonicalUserCode(typed), user, at) else rows
    case Poll(code, account, sessionOk, at) => AfterPoll(rows, code, account, sessionOk, at)
    case Sweep(olderThan, _) => Swept(rows, olderThan)
  }

  ghost function Next(w: World, op: Op): World {
    var rows := NextRows(w.rows, op);
    match op
    case Start(code, userCode, at) =>
      if Taken(w.rows, userCode) then w else w.(rows := rows, expiry := w.expiry[code := at + DeviceCodeTtl])
    case Approve(typed, user, account, at) =>
      var newly := map code | code in rows && code !in w.bound && rows[code].userId == Some(user) :: user;
      w.(rows := rows, bound := w.bound + newly)
    case Poll(code, account, sessionOk, at) =>
      var reply := PollReplyOf(w.rows, code, account, sessionOk, at);
      w.(rows := rows, grants := w.grants + if reply.Token? then [Grant(code, reply.user, at)] else [])
    case Sweep(_, _) => w.(rows := rows)
  }

  /** Device codes are never reused; time does not go back. */
  ghost predicate Enabled(w: World, clock: int, op: Op) {
    clock <= op.at && (op.Start? ==> op.code !in w.expiry)
  }

  ghost predicate Runs(w: World, clock: int, ops: seq<Op>)
    decreases |ops|
  {
    ops == [] || (Enabled(w, clock, ops[0]) && Runs(Next(w, ops[0]), ops[0].at, ops[1..]))
  }

  ghost function After(w: World, ops: seq<Op>): World
    decreases |ops|
  {
    if ops == [] then w else After(Next(w, ops[0]), ops[1..])
  }

  const Empty := World(map[], map[], map[], [])

  // ---- What every run keeps ----

  /** Rows agree with the history: expiry and first binding never change. */
  ghost predicate RowsSound(w: World) {
    && UserCodesUnique(w.rows)
    && (forall code :: code in w.rows ==> Lookup(w.expiry, code) == Some(w.rows[code].expiresAt))
    && (forall code :: code in w.rows ==> w.rows[code].userId == Lookup(w.bound, code))
    && (forall code :: code in w.bound ==> code in w.expiry)
  }

  /** The token went to the user the code was first bound to, in time, and the
      code is spent. */
  ghost predicate GrantOk(w: World, g: Grant) {
    && Lookup(w.bound, g.code) == Some(g.user)
    && g.code in w.expiry && g.at <= w.expiry[g.code]
    && (g.code in w.rows ==> w.rows[g.code].consumedAt.Some?)
  }

  ghost predicate GrantsSound(w: World) {
    && (forall i, j :: 0 <= i < j < |w.grants| ==> w.grants[i].code != w.grants[j].code)
    && (forall i :: 0 <= i < |w.grants| ==> GrantOk(w, w.grants[i]))
  }

  /** What a step does to one row: history facts are kept, and a spent code is
      not unspent. */
  lemma RowSteps(w: World, clock: int, op: Op, code: Code)
    requires RowsSound(w) && Enabled(w, clock, op)
    requires code in NextRows(w.rows, op)
    ensures var row' := NextRows(w.rows, op)[code];
      if code in w.rows then
        && row'.userCode == w.rows[code].userCode && row'.expiresAt == w.rows[code].expiresAt
        && (w.rows[code].userId.Some? ==> row'.userId == w.rows[code].userId)
        && (w.rows[code].consumedAt.Some? ==> row'.consumedAt.Some?)
        && (row'.userId != w.rows[code].userId ==> op.Approve? && row'.userId == Some(op.user))
      else op.Start? && op.code == code && row' == NewRow(op.userCode, op.at)
  {
  }

  lemma StepKeepsRows(w: World, clock: int, op: Op)
    requires RowsSound(w) && Enabled(w, clock, op)
    ensures RowsSound(Next(w, op))
    ensures forall code :: code in w.bound ==> Lookup(Next(w, op).bound, code) == Lookup(w.bound, code)
    ensures forall code :: code in w.expiry ==> Lookup(Next(w, op).expiry, code) == Lookup(w.expiry, code)
  {
    var w' := Next(w, op);
    forall code | code in w'.rows
      ensures Lookup(w'.expiry, code) == Some(w'.rows[code].expiresAt)
      ensures w'.rows[code].userId == Lookup(w'.bound, code)
    {
      RowSteps(w, clock, op, code);
    }
    forall a, b | a in w'.rows && b in w'.rows && w'.rows[a].userCode == w'.rows[b].userCode
      ensures a == b
    {
      RowSteps(w, clock, op, a);
      RowSteps(w, clock, op, b);
      if a !in w.rows { assert b in w.rows ==> HasUserCode(w.rows, b, op.userCode); }
      if b !in w.rows { assert a in w.rows ==> HasUserCode(w.rows, a, op.userCode); }
    }
  }

  lemma GrantStays(w: World, clock: int, op: Op, g: Grant)
    requires RowsSound(w) && Enabled(w, clock, op) && GrantOk(w, g)
    ensures GrantOk(Next(w, op), g)
  {
    StepKeepsRows(w, clock, op);
    assert Lookup(Next(w, op).bound, g.code) == Lookup(w.bound, g.code);
    assert Lookup(Next(w, op).expiry, g.code) == Lookup(w.expiry, g.code);
    if g.code in Next(w, op).rows { RowSteps(w, clock, op, g.code); }
  }

  /** A new grant goes to the user bound to the code, in time, and no grant for
      the code came before it. */
  lemma GrantIsSound(w: World, clock: int, op: Op)
    requires RowsSound(w) && GrantsSound(w) && Enabled(w, clock, op)
    requires op.Poll? && PollReplyOf(w.rows, op.code, op.account, op.sessionOk, op.at).Token?
    ensures var g := Grant(op.code, PollReplyOf(w.rows, op.code, op.account, op.sessionOk, op.at).user, op.at);
      GrantOk(Next(w, op), g) && forall i :: 0 <= i < |w.grants| ==> w.grants[i].code != op.code
  {
    forall i | 0 <= i < |w.grants|
      ensures w.grants[i].code != op.code
    {
      assert GrantOk(w, w.grants[i]);
    }
  }

  lemma StepKeepsGrants(w: World, clock: int, op: Op)
    requires RowsSound(w) && GrantsSound(w) && Enabled(w, clock, op)
    ensures GrantsSound(Next(w, op))
  {
    var w' := Next(w, op);
    var issues := op.Poll? && PollReplyOf(w.rows, op.code, op.account, op.sessionOk, op.at).Token?;
    assert !issues ==> w'.grants == w.grants;
    if issues { GrantIsSound(w, clock, op); }
    forall i | 0 <= i < |w'.grants|
      ensures GrantOk(w', w'.grants[i])
    {
      if i < |w.grants| { GrantStays(w, clock, op, w.grants[i]); }
    }
  }

  ghost predicate Sound(w: World) { RowsSound(w) && GrantsSound(w) }

  /** In every run a code yields at most one token, only to the user it was
      first bound to, and not after its expiry. */
  lemma {:induction false} RunKeepsSound(w: World, clock: int, ops: seq<Op>)
    requires Sound(w) && Runs(w, clock, ops)
    ensures Sound(After(w, ops)) && Sound(Empty)
    decreases |ops|
  {
    if ops != [] {
      StepKeepsRows(w, clock, ops[0]);
      StepKeepsGrants(w, clock, ops[0]);
      RunKeepsSound(Next(w, ops[0]), ops[0].at, ops[1..]);
    }
  }

  // ---- The inspected status ----

  datatype Status = IsPending | IsApproved | IsConsumed | IsExpired | IsGone

  function Inspected(rows: Rows, code: Code, now: int): Status {
    if code !in rows then IsGone
    else if now > rows[code].expiresAt then IsExpired
    else if rows[code].consumedAt.Some? then IsConsumed
    else if rows[code].userId.Some? then IsApproved
    else IsPending
  }

  function Rank(s: Status): nat {
    match s
    case IsPending => 0
    case IsApproved => 1
    case IsConsumed => 2
    case IsExpired => 3
    case IsGone => 4
  }

  lemma StepAdvancesStatus(w: World, clock: int, op: Op, code: Code, now: int)
    requires RowsSound(w) && Enabled(w, clock, op) && code in w.expiry
    ensures Rank(Inspected(w.rows, code, now)) <= Rank(Inspected(Next(w, op).rows, code, now))
  {
    if code in Next(w, op).rows { RowSteps(w, clock, op, code); }
  }

  /** The status of a code that was started never moves backwards, whatever
      steps happen between two inspections. A swept code counts as the last
      status. */
  lemma {:induction false} StatusOnlyAdvances(w: World, clock: int, ops: seq<Op>, code: Code, now: int, later: int)
    requires RowsSound(w) && Runs(w, clock, ops) && code in w.expiry && now <= later
    ensures Rank(Inspected(w.rows, code, now)) <= Rank(Inspected(After(w, ops).rows, code, later))
    decreases |ops|
  {
    if ops != [] {
      StepKeepsRows(w, clock, ops[0]);
      StepAdvancesStatus(w, clock, ops[0], code, now);
      StatusOnlyAdvances(Next(w, ops[0]), ops[0].at, ops[1..], code, now, later);
    }
  }

  // ---- Poll cadence ----

  /** The poll got as far as recording its time. */
  predicate Recorded(r: PollReply) { !r.NotFound? && !r.Expired? }

  predicate PolledSince(rows: Rows, code: Code, at: int) {
    code in rows ==> rows[code].lastPolledAt.Some? && at <= rows[code].lastPolledAt.value
  }

  lemma StepKeepsPolledSince(w: World, clock: int, op: Op, code: Code, at: int)
    requires RowsSound(w) && Enabled(w, clock, op) && code in w.expiry
    requires PolledSince(w.rows, code, at) && at <= clock
    ensures PolledSince(Next(w, op).rows, code, at)
  {
    if code in Next(w, op).rows { RowSteps(w, clock, op, code); }
  }

  lemma {:induction false} PolledSinceStays(w: World, clock: int, ops: seq<Op>, code: Code, at: int)
    requires RowsSound(w) && Runs(w, clock, ops) && code in w.expiry
    requires PolledSince(w.rows, code, at) && at <= clock
    ensures PolledSince(After(w, ops).rows, code, at)
    decreases |ops|
  {
    if ops != [] {
      StepKeepsRows(w, clock, ops[0]);
      StepKeepsPolledSince(w, clock, ops[0], code, at);
      PolledSinceStays(Next(w, ops[0]), ops[0].at, ops[1..], code, at);
    }
  }

  /** In a run, a poll that passes the slow-down check comes at least MinPollGap
      after every earlier recorded poll of the code, refused ones included. */
  lemma PollsKeepTheirDistance(w: World, clock: int, first: Op, between: seq<Op>, second: Op)
    requires RowsSound(w) && first.Poll? && second.Poll? && first.code == second.code
    requires Runs(w, clock, [first] + between)
    requires Recorded(PollReplyOf(w.rows, first.code, first.account, first.sessionOk, first.at))
    requires var r := PollReplyOf(After(w, [first] + between).rows, second.code, second.account, second.sessionOk, second.at);
             Recorded(r) && !r.SlowDown?
    ensures second.at - first.at >= MinPollGap
  {
    assert ([first] + between)[1..] == between;
    StepKeepsRows(w, clock, first);
    PolledSinceStays(Next(w, first), first.at, between, first.code, first.at);
  }

  // ---- What an approval that reports success has done ----

  /** ApproveDevice can answer without an error and still not bind the code: on
      a pending code at the very instant it expires, where the guarded UPDATE no
      longer matches. It binds in every other case. */
  lemma ApprovalBindsIff(w: World, typed: string, user: string, account: Option<User>, at: int, code: Code)
    requires RowsSound(w) && HasUserCode(w.rows, code, CanonicalUserCode(typed))
    requires Succeeds(ApproveReplyOf(w.rows, typed, user, account, at))
    ensures NextRows(w.rows, Approve(typed, user, account, at))[code].userId == Some(user)
       <==> w.rows[code].userId.Some? || at < w.rows[code].expiresAt
  {
    assert ByUserCode(w.rows, CanonicalUserCode(typed)) == Some(code);
  }

  /** Such an input: a new code, approved by an active user as it expires. */
  lemma ApprovalAtExpiryIsLost(code: Code, userCode: string, user: User)
    requires Plain(userCode) && user.active && user.accessExpiresAt == None
    ensures var rows: Rows := map[code := NewRow(userCode, 0)];
      && ApproveReplyOf(rows, userCode, user.id, Some(user), DeviceCodeTtl) == Approved
      && NextRows(rows, Approve(userCode, user.id, Some(user), DeviceCodeTtl))[code].userId == None
  {
    var rows: Rows := map[code := NewRow(userCode, 0)];
    CanonicalIsSqueezed(userCode);
    PlainSqueezes(userCode);
    assert HasUserCode(rows, code, userCode);
    assert ByUserCode(rows, userCode) == Some(code);
  }

  // ---- Who gets a token, and who may approve ----

  /** The code can be polled now: it is there, in time, not spent, and was not
      polled within the last four seconds. */
  predicate Pollable(rows: Rows, code: Code, at: int) {
    && code in rows && at <= rows[code].expiresAt && rows[code].consumedAt.None?
    && (rows[code].lastPolledAt.Some? ==> rows[code].lastPolledAt.value + 4_000_000_000 <= at)
  }

  predicate AccountOpen(account: Option<User>, at: int) {
    account.Some? && MayEnter(account.value, at)
  }

  /** Why a poll gets no token. */
  predicate RefusedFor(r: PollReply, rows: Rows, code: Code, account: Option<User>, sessionOk: bool, at: int) {
    match r
    case NotFound => code !in rows
    case Expired => code in rows && (rows[code].expiresAt < at || rows[code].consumedAt.Some?)
    case SlowDown =>
      && code in rows && at <= rows[code].expiresAt && rows[code].consumedAt.None? && !Pollable(rows, code, at)
    case Pending => Pollable(rows, code, at) && rows[code].userId.None?
    case NoUser => Pollable(rows, code, at) && rows[code].userId.Some? && account.None?
    case NoAccess =>
      && Pollable(rows, code, at) && rows[code].userId.Some?
      && account.Some? && account.value.accessExpiresAt.Some? && account.value.accessExpiresAt.value <= at
    case Disabled =>
      && Pollable(rows, code, at) && rows[code].userId.Some?
      && account.Some? && !account.value.active && MayEnter(account.value.(active := true), at)
    case SessionFailed => Pollable(rows, code, at) && rows[code].userId.Some? && AccountOpen(account, at) && !sessionOk
    case Token(_) => false
  }

  /** A poll gets a token for a user if and only if the code can be polled, is
      bound to that user, whose account is open, and a session can be issued. */
  lemma TokenIff(rows: Rows, code: Code, account: Option<User>, sessionOk: bool, at: int, user: string)
    ensures PollReplyOf(rows, code, account, sessionOk, at) == Token(user)
       <==> Pollable(rows, code, at) && rows[code].userId == Some(user) && AccountOpen(account, at) && sessionOk
  {
  }

  lemma NoTokenIff(rows: Rows, code: Code, account: Option<User>, sessionOk: bool, at: int, r: PollReply)
    requires !r.Token?
    ensures PollReplyOf(rows, code, account, sessionOk, at) == r <==> RefusedFor(r, rows, code, account, sessionOk, at)
  {
  }

  /** An approval goes through if and only if the code is there, in time and free
      and the approver's account is open. */
  lemma ApprovedIff(rows: Rows, typed: string, user: string, account: Option<User>, at: int)
    requires UserCodesUnique(rows)
    ensures ApproveReplyOf(rows, typed, user, account, at) == Approved
       <==> AccountOpen(account, at) && exists code :: HasUserCode(rows, code, CanonicalUserCode(typed))
                                                       && at <= rows[code].expiresAt && rows[code].userId.None?
  {
    if code :| HasUserCode(rows, code, CanonicalUserCode(typed)) {
      assert ByUserCode(rows, CanonicalUserCode(typed)) == Some(code);
    }
  }

  /** An approval changes the row it is for and no other. */
  lemma ApprovalTouchesOne(rows: Rows, typed: string, user: string, account: Option<User>, at: int, code: Code)
    requires code in rows
    ensures var rows' := NextRows(rows, Approve(typed, user, account, at));
      && rows'.Keys == rows.Keys
      && (rows[code].userCode != CanonicalUserCode(typed) ==> rows'[code] == rows[code])
      && (rows[code].userId.Some? ==> rows'[code] == rows[code])
      && (rows'[code] != rows[code] ==> rows'[code] == rows[code].(userId := Some(user)))
  {
  }

  /** The sweep drops what has expired before its cutoff and what is spent. */
  lemma SweepDropsIff(rows: Rows, olderThan: int, at: int, code: Code)
    ensures var rows' := NextRows(rows, Sweep(olderThan, at));
      && (code in rows && code !in rows' <==> code in rows && (rows[code].expiresAt < olderThan || rows[code].consumedAt != None))
      && (code in rows' ==> code in rows && rows'[code] == rows[code])
  {
  }

  /** What the status page shows is what a poll with its distance kept would
      answer, for an open account. */
  lemma StatusForetellsPoll(rows: Rows, code: Code, account: Option<User>, now: int)
    requires AccountOpen(account, now)
    requires code in rows && rows[code].lastPolledAt.Some? ==> rows[code].lastPolledAt.value + MinPollGap <= now
    ensures var status, r := Inspected(rows, code, now), PollReplyOf(rows, code, account, true, now);
      && (status.IsGone? <==> r.NotFound?) && (status.IsPending? <==> r.Pending?) && (status.IsApproved? <==> r.Token?)
      && (status.IsConsumed? || status.IsExpired? <==> r.Expired?)
      && (status.IsConsumed? ==> rows[code].consumedAt.Some?)
      && (status.IsExpired? <==> code in rows && rows[code].expiresAt < now)
  {
  }

  // ---- The services ----

  class DeviceCodeRepository {
    var rows: Rows

    constructor ()
      ensures rows == map[]
    {
      rows := map[];
    }

    method Insert(code: Code, row: Row) returns (ok: bool)
      requires code !in rows
      modifies this
      ensures ok == !Taken(old(rows), row.userCode)
      ensures rows == if ok then old(rows)[code := row] else old(rows)
    {
      var clash := set c | c in rows && rows[c].userCode == row.userCode;
      if clash != {} {
        var c :| c in clash;
        assert HasUserCode(rows, c, row.userCode);
        return false;
      }
      assert forall c :: HasUserCode(rows, c, row.userCode) ==> c in clash;
      rows := rows[code := row];
      return true;
    }

    method GetByUserCode(userCode: string) returns (found: Option<Code>)
      ensures found.Some? ==> HasUserCode(rows, found.value, userCode)
      ensures found.None? ==> forall c :: !HasUserCode(rows, c, userCode)
    {
      var matches := set c | c in rows && rows[c].userCode == userCode;
      if matches == {} {
        assert forall c :: HasUserCode(rows, c, userCode) ==> c in matches;
        return None;
      }
      var c :| c in matches;
      return Some(c);
    }

    method Approve(userCode: string, user: string, at: int)
      modifies this
      ensures rows == Bound(old(rows), userCode, user, at)
    {
      rows := map code | code in rows ::
        if rows[code].userCode == userCode && rows[code].userId.None? && rows[code].expiresAt > at
        then rows[code].(userId := Some(user)) else rows[code];
    }

    method Consume(code: Code, at: int)
      modifies this
      ensures rows == if code in old(rows) && old(rows)[code].consumedAt.None?
                      then old(rows)[code := old(rows)[code].(consumedAt := Some(at))] else old(rows)
    {
      if code in rows && rows[code].consumedAt.None? {
        rows := rows[code := rows[code].(consumedAt := Some(at))];
      }
    }

    method TouchPollAt(code: Code, at: int)
      modifies this
      ensures rows == if code in old(rows) then old(rows)[code := old(rows)[code].(lastPolledAt := Some(at))] else old(rows)
    {
      if code in rows {
        rows := rows[code := rows[code].(lastPolledAt := Some(at))];
      }
    }

    method DeleteExpired(olderThan: int)
      modifies this
      ensures rows == Swept(old(rows), olderThan)
    {
      rows := map code | code in rows && !(rows[code].expiresAt < olderThan || rows[code].consumedAt.Some?) :: rows[code];
    }
  }

  class DeviceCodeService {
    const codes: DeviceCodeRepository

    constructor (codes: DeviceCodeRepository)
      ensures this.codes == codes
    {
      this.codes := codes;
    }

    /** `code` and `random` are the new random device code and the random bytes
        of the user code. */
    method StartDevice(code: Code, random: seq<nat>, now: int) returns (userCode: Option<string>)
      requires code !in codes.rows && |random| == UserCodeLength
      modifies codes
      ensures codes.rows == NextRows(old(codes.rows), Start(code, GenerateUserCode(random), now))
      ensures userCode == if Taken(old(codes.rows), GenerateUserCode(random)) then None else Some(GenerateUserCode(random))
    {
      var generated := GenerateUserCode(random);
      var ok := codes.Insert(code, Row(generated, None, now + DeviceCodeTtl, None, None));
      return if ok then Some(generated) else None;
    }

    method ApproveDevice(typed: string, user: string, account: Option<User>, now: int) returns (r: ApproveReply)
      requires UserCodesUnique(codes.rows)
      modifies codes
      ensures r == ApproveReplyOf(old(codes.rows), typed, user, account, now)
      ensures codes.rows == NextRows(old(codes.rows), Op.Approve(typed, user, account, now))
      ensures r == Approved ==> AccountOpen(account, now)
    {
      var canonical := CanonicalUserCode(typed);
      var found := codes.GetByUserCode(canonical);
      if found.None? {
        return NoSuchCode;
      }
      assert ByUserCode(codes.rows, canonical) == found;
      var row := codes.rows[found.value];
      if now > row.expiresAt {
        return CodeExpired;
      }
      if row.userId.Some? {
        if row.userId.value == user {
          return AlreadyApproved;
        }
        return Conflict;
      }
      if account.None? {
        return UserMissing;
      }
      if account.value.accessExpiresAt.Some? && !(account.value.accessExpiresAt.value > now) {
        return UserNoAccess;
      }
      if !account.value.active {
        return UserDisabled;
      }
      codes.Approve(canonical, user, now);
      return Approved;
    }

    method InspectDevice(code: Code, now: int) returns (s: Status)
      ensures s == Inspected(codes.rows, code, now)
    {
      if code !in codes.rows {
        return IsGone;
      }
      var row := codes.rows[code];
      if now > row.expiresAt {
        return IsExpired;
      }
      if row.consumedAt.Some? {
        return IsConsumed;
      }
      if row.userId.Some? {
        return IsApproved;
      }
      return IsPending;
    }

    /** `account` is what the user lookup would find and `sessionOk` whether
        issuing a session succeeds. */
    method PollDevice(code: Code, account: Option<User>, sessionOk: bool, now: int) returns (r: PollReply)
      modifies codes
      ensures r == PollReplyOf(old(codes.rows), code, account, sessionOk, now)
      ensures codes.rows == NextRows(old(codes.rows), Poll(code, account, sessionOk, now))
      ensures r.Token? <==> Pollable(old(codes.rows), code, now) && old(codes.rows)[code].userId.Some? && AccountOpen(account, now) && sessionOk
      ensures r.Token? ==> old(codes.rows)[code].userId == Some(r.user)
      ensures r.Token? || RefusedFor(r, old(codes.rows), code, account, sessionOk, now)
    {
      if code !in codes.rows {
        return NotFound;
      }
      var row := codes.rows[code];
      if now > row.expiresAt {
        return PollReply.Expired;
      }
      if row.consumedAt.Some? {
        return PollReply.Expired;
      }
      if row.lastPolledAt.Some? && now - row.lastPolledAt.value < MinPollGap {
        codes.TouchPollAt(code, now);
        return SlowDown;
      }
      codes.TouchPollAt(code, now);
      if row.userId.None? {
        return Pending;
      }
      if account.None? {
        return NoUser;
      }
      if account.value.accessExpiresAt.Some? && !(account.value.accessExpiresAt.value > now) {
        return NoAccess;
      }
      if !account.value.active {
        return Disabled;
      }
      if !sessionOk {
        return SessionFailed;
      }
      codes.Consume(code, now);
      return Token(row.userId.value);
    }
  }
}
