/** The login limiter of internal/auth/ratelimit.go: a failure window and a
    lockout per key. The first half says what each call does to a table of
    windows, the class below keeps that table in mutable records as the source
    does, and the last part proves what holds over whole runs. */
module RateLimit {
  import opened Common

  datatype Policy = Policy(window: int, maxFails: int, lockout: int)

  /** The value of one attempt record. The zero time of `lockedUntil` is None. */
  datatype Window = Window(failures: nat, firstFail: int, lockedUntil: Option<int>)

  type Table = map<string, Window>

  predicate LockExpired(w: Window, now: int) {
    w.lockedUntil.Some? && now > w.lockedUntil.value
  }

  predicate WindowExpired(p: Policy, w: Window, now: int) {
    now - w.firstFail > p.window
  }

  predicate Stale(p: Policy, w: Window, now: int) {
    LockExpired(w, now) || WindowExpired(p, w, now)
  }

  predicate Blocking(w: Window, now: int) {
    w.lockedUntil.Some? && now < w.lockedUntil.value
  }

  // ---- What each call does to the table ----

  predicate Locked(p: Policy, m: Table, key: string, now: int) {
    key in m && !Stale(p, m[key], now) && Blocking(m[key], now)
  }

  function AfterCheck(p: Policy, m: Table, key: string, now: int): Table {
    if key in m && Stale(p, m[key], now) then m - {key} else m
  }

  /** The window a failure is counted in: the running one, or a new one. */
  function Counted(p: Policy, m: Table, key: string, now: int): Window {
    var w := if key in m && !WindowExpired(p, m[key], now) then m[key] else Window(0, now, None);
    w.(failures := w.failures + 1)
  }

  predicate Locks(p: Policy, m: Table, key: string, now: int) {
    Counted(p, m, key, now).failures >= p.maxFails
  }

  function AfterFail(p: Policy, m: Table, key: string, now: int): Table {
    var w := Counted(p, m, key, now);
    m[key := if Locks(p, m, key, now) then w.(lockedUntil := Some(now + p.lockout)) else w]
  }

  function AfterSweep(p: Policy, m: Table, now: int): Table {
    map key | key in m && !Stale(p, m[key], now) :: m[key]
  }

  /** The record a key still has at a time: its lock has not run out and its
      window has not closed. */
  function Running(p: Policy, m: Table, key: string, now: int): Option<Window> {
    if key in m && now <= m[key].firstFail + p.window && (m[key].lockedUntil.Some? ==> now <= m[key].lockedUntil.value)
    then Some(m[key]) else None
  }

  /** A table that agrees with `m` but for the failed key is what a failure leaves. */
  lemma FailedTable(p: Policy, m: Table, m': Table, key: string, now: int)
    requires m'.Keys == m.Keys + {key}
    requires forall k :: k in m && k != key ==> m'[k] == m[k]
    requires var w := Counted(p, m, key, now); m'[key] == if Locks(p, m, key, now) then w.(lockedUntil := Some(now + p.lockout)) else w
    ensures m' == AfterFail(p, m, key, now)
  {
  }

  // ---- The limiter itself ----

  class AttemptRecord {
    var failures: nat
    var firstFail: int
    var lockedUntil: Option<int>

    constructor (now: int)
      ensures Value() == Window(0, now, None)
    {
      failures, firstFail, lockedUntil := 0, now, None;
    }

    function Value(): Window
      reads this
    {
      Window(failures, firstFail, lockedUntil)
    }

    /** One failure more; too many set the lock. */
    method Count(policy: Policy, now: int) returns (locked: bool)
      modifies this
      ensures firstFail == old(firstFail) && failures == old(failures) + 1
      ensures locked <==> failures >= policy.maxFails
      ensures lockedUntil == if locked then Some(now + policy.lockout) else old(lockedUntil)
    {
      failures := failures + 1;
      locked := failures >= policy.maxFails;
      if locked {
        lockedUntil := Some(now + policy.lockout);
      }
    }
  }

  class LoginRateLimiter {
    const policy: Policy
    var attempts: map<string, AttemptRecord>

    /** No two keys share a record. */
    ghost predicate Valid()
      reads this
    {
      forall j, k :: j in attempts && k in attempts && j != k ==> attempts[j] != attempts[k]
    }

    ghost function Contents(): Table
      reads this, attempts.Values
    {
      map key | key in attempts :: attempts[key].Value()
    }

    constructor (policy: Policy)
      ensures Valid() && this.policy == policy && attempts == map[] && Contents() == map[]
    {
      this.policy := policy;
      attempts := map[];
    }

    method IsLocked(key: string, now: int) returns (locked: bool)
      requires Valid()
      modifies this
      ensures Valid() && attempts.Values <= old(attempts.Values)
      ensures locked == Locked(policy, old(Contents()), key, now)
      ensures Contents() == AfterCheck(policy, old(Contents()), key, now)
      ensures var rec := Running(policy, old(Contents()), key, now);
        && locked == (rec.Some? && rec.value.lockedUntil.Some? && now < rec.value.lockedUntil.value)
        && attempts == if rec.Some? then old(attempts) else old(attempts) - {key}
    {
      if key !in attempts {
        return false;
      }
      var rec := attempts[key];
      if rec.lockedUntil.Some? && now > rec.lockedUntil.value {
        attempts := attempts - {key};
        return false;
      }
      if now - rec.firstFail > policy.window {
        attempts := attempts - {key};
        return false;
      }
      return rec.lockedUntil.Some? && now < rec.lockedUntil.value;
    }

    method RecordFailure(key: string, now: int) returns (locked: bool)
      requires Valid()
      modifies this, attempts.Values
      ensures Valid() && fresh(attempts.Values - old(attempts.Values))
      ensures locked == Locks(policy, old(Contents()), key, now)
      ensures Contents() == AfterFail(policy, old(Contents()), key, now)
    {
      var rec: AttemptRecord;
      if key in attempts && !(now - attempts[key].firstFail > policy.window) {
        rec := attempts[key];
      } else {
        rec := new AttemptRecord(now);
        attempts := attempts[key := rec];
      }
      locked := rec.Count(policy, now);
      FailedTable(policy, old(Contents()), Contents(), key, now);
    }

    method RecordSuccess(key: string)
      requires Valid()
      modifies this
      ensures Valid() && attempts.Values <= old(attempts.Values)
      ensures Contents() == old(Contents()) - {key}
    {
      attempts := attempts - {key};
    }

    method Cleanup(now: int)
      requires Valid()
      modifies this
      ensures Valid() && attempts.Values <= old(attempts.Values)
      ensures Contents() == AfterSweep(policy, old(Contents()), now)
      ensures forall key :: key in attempts <==> Running(policy, old(Contents()), key, now).Some?
      ensures forall key :: key in attempts ==> key in old(attempts) && attempts[key] == old(attempts)[key]
    {
      var todo := attempts.Keys;
      ghost var was := attempts;
      while todo != {}
        invariant todo <= was.Keys && attempts.Keys <= was.Keys
        invariant forall k :: k in attempts ==> attempts[k] == was[k]
        invariant forall k :: k in todo ==> k in attempts
        invariant forall k :: k in was && k !in todo ==> (k in attempts <==> !Stale(policy, was[k].Value(), now))
      {
        var key :| key in todo;
        todo := todo - {key};
        var rec := attempts[key];
        if rec.lockedUntil.Some? && now > rec.lockedUntil.value {
          attempts := attempts - {key};
        } else if now - rec.firstFail > policy.window {
          attempts := attempts - {key};
        }
      }
    }
  }

  // ---- Runs ----

  datatype Op =
    | Check(key: string, at: int)
    | Fail(key: string, at: int)
    | Success(key: string, at: int)
    | Sweep(at: int)

  function Next(p: Policy, m: Table, op: Op): Table {
    match op
    case Check(key, at) => AfterCheck(p, m, key, at)
    case Fail(key, at) => AfterFail(p, m, key, at)
    case Success(key, _) => m - {key}
    case Sweep(at) => AfterSweep(p, m, at)
  }

  function Reply(p: Policy, m: Table, op: Op): bool {
    match op
    case Check(key, at) => Locked(p, m, key, at)
    case Fail(key, at) => Locks(p, m, key, at)
    case _ => false
  }

  function Run(p: Policy, m: Table, ops: seq<Op>): Table
    decreases |ops|
  {
    if ops == [] then m else Run(p, Next(p, m, ops[0]), ops[1..])
  }

  /** The answers a caller sees: one for every call but `cleanup`. */
  function Replies(p: Policy, m: Table, ops: seq<Op>): seq<bool>
    decreases |ops|
  {
    if ops == [] then []
    else (if ops[0].Sweep? then [] else [Reply(p, m, ops[0])]) + Replies(p, Next(p, m, ops[0]), ops[1..])
  }

  /** Which keys hold an unspent "not locked" answer, and when it was given. */
  function Grants(p: Policy, m: Table, granted: map<string, int>, op: Op): map<string, int> {
    match op
    case Check(key, at) => if Locked(p, m, key, at) then granted - {key} else granted[key := at]
    case Fail(key, _) => granted - {key}
    case _ => granted
  }

  /** Time does not go back, and every failure spends a "not locked" answer
      given for its key at the same clock reading. */
  predicate Gated(p: Policy, m: Table, granted: map<string, int>, clock: int, ops: seq<Op>)
    decreases |ops|
  {
    ops == [] ||
    (&& clock <= ops[0].at
     && (ops[0].Fail? ==> ops[0].key in granted && granted[ops[0].key] == ops[0].at)
     && Gated(p, Next(p, m, ops[0]), Grants(p, m, granted, ops[0]), ops[0].at, ops[1..]))
  }

  /** A grant that can still be spent is backed by a window that is neither
      stale nor blocking. */
  ghost predicate GrantsBacked(p: Policy, m: Table, granted: map<string, int>, clock: int) {
    forall key :: key in granted ==>
      && granted[key] <= clock
      && (granted[key] == clock && key in m ==> !Stale(p, m[key], clock) && !Blocking(m[key], clock))
  }

  lemma GrantsStayBacked(p: Policy, m: Table, granted: map<string, int>, clock: int, op: Op)
    requires GrantsBacked(p, m, granted, clock) && clock <= op.at
    ensures GrantsBacked(p, Next(p, m, op), Grants(p, m, granted, op), op.at)
  {
  }

  // ---- When a key locks, and for how long ----

  function FailAt(key: string, times: seq<int>): seq<Op> {
    seq(|times|, i requires 0 <= i < |times| => Fail(key, times[i]))
  }

  /** Failures within one window of the first all land in one window, and the
      key locks exactly from the `maxFails`-th on. */
  lemma {:induction false} FailuresAccumulate(p: Policy, m: Table, key: string, times: seq<int>)
    requires key !in m && times != []
    requires forall i :: 0 <= i < |times| ==> times[i] - times[0] <= p.window
    ensures
      var m' := Run(p, m, FailAt(key, times));
      && key in m' && m'[key].failures == |times| && m'[key].firstFail == times[0]
      && (|times| >= p.maxFails ==> m'[key].lockedUntil == Some(times[|times| - 1] + p.lockout))
      && (|times| < p.maxFails ==> m'[key].lockedUntil == None)
  {
    var last := times[|times| - 1];
    var before := times[..|times| - 1];
    assert FailAt(key, times) == FailAt(key, before) + [Fail(key, last)];
    RunAppend(p, m, FailAt(key, before), [Fail(key, last)]);
    assert [Fail(key, last)][1..] == [];
    if before == [] {
      assert FailAt(key, before) == [];
    } else {
      FailuresAccumulate(p, m, key, before);
    }
  }

  lemma {:induction false} RunAppend(p: Policy, m: Table, a: seq<Op>, b: seq<Op>)
    ensures Run(p, m, a + b) == Run(p, Run(p, m, a), b)
    decreases |a|
  {
    if a == [] {
      assert a + b == b;
    } else {
      assert (a + b)[0] == a[0] && (a + b)[1..] == a[1..] + b;
      RunAppend(p, Next(p, m, a[0]), a[1..], b);
    }
  }

  /** A lock lasts until the lockout elapses or the window it was earned in
      closes, whichever comes first. */
  lemma LockLasts(p: Policy, m: Table, key: string, at: int, now: int)
    requires Locks(p, m, key, at)
    ensures Locked(p, AfterFail(p, m, key, at), key, now)
       <==> now < at + p.lockout && now <= Counted(p, m, key, at).firstFail + p.window
  {
  }

  // ---- The amortised bound ----

  function Failures(ops: seq<Op>, key: string): nat {
    if ops == [] then 0
    else (if ops[0].Fail? && ops[0].key == key then 1 else 0) + Failures(ops[1..], key)
  }

  /** No success of `key`, and its failures fall between `from` and `to`. */
  predicate FailuresWithin(ops: seq<Op>, key: string, from: int, to: int) {
    forall i :: 0 <= i < |ops| ==>
      && (ops[i].Success? ==> ops[i].key != key)
      && (ops[i].Fail? && ops[i].key == key ==> from <= ops[i].at <= to)
  }

  function Min(a: int, b: int): int { if a < b then a else b }

  /** The accounting behind the bound: `n` failures so far, counted from `from`.
      Past windows have been paid for by elapsed time; the running one holds
      `maxFails` failures plus one for each full lockout that elapsed in it. */
  ghost predicate Paid(p: Policy, m: Table, key: string, n: nat, from: int, to: int, clock: int) {
    var unit := Min(p.window, p.lockout);
    if key !in m then
      n == 0 || (&& from <= clock
                 && n * unit <= (p.maxFails + 1) * (clock - from)
                 && n * unit <= (p.maxFails + 1) * (to - from + unit))
    else
      var w := m[key];
      && 1 <= w.failures <= n && from <= w.firstFail <= clock && w.firstFail <= to
      && (n - w.failures) * unit <= (p.maxFails + 1) * (w.firstFail - from)
      && (w.failures < p.maxFails ==> w.lockedUntil.None?)
      && (w.failures >= p.maxFails ==>
            && w.lockedUntil.Some?
            && var last := w.lockedUntil.value - p.lockout;
               && last <= clock && last <= to
               && w.firstFail + (w.failures - p.maxFails) * p.lockout <= last)
  }

  ghost predicate Sound(p: Policy) {
    1 <= p.maxFails && 0 < p.window && 0 < p.lockout
  }

  lemma Scale(k: nat, small: int, large: int)
    requires 0 <= small <= large
    ensures 0 <= k * small <= k * large
  {
  }

  /** `fails + extra` units fit in `fails + 1` stretches that each hold one unit
      and `extra` units. */
  lemma Spread(fails: nat, extra: nat, unit: int, stretch: int)
    requires 0 < unit <= stretch && extra * unit <= stretch
    ensures (fails + extra) * unit <= (fails + 1) * stretch
  {
    Scale(fails, unit, stretch);
    assert (fails + extra) * unit == fails * unit + extra * unit;
    assert (fails + 1) * stretch == fails * stretch + stretch;
  }

  /** The failures of one window are paid for by the time it lasted. */
  lemma WindowPays(maxFails: nat, failures: nat, unit: int, lockout: int, stretch: int)
    requires 0 < unit <= lockout && unit <= stretch
    requires failures >= maxFails ==> (failures - maxFails) * lockout <= stretch
    ensures failures * unit <= (maxFails + 1) * stretch
  {
    if failures < maxFails {
      Spread(failures, 0, unit, stretch);
      Scale(stretch, failures + 1, maxFails + 1);
    } else {
      Scale(failures - maxFails, unit, lockout);
      Spread(maxFails, failures - maxFails, unit, stretch);
    }
  }

  lemma AddUp(m: int, a: int, b: int)
    ensures m * (a + b) == m * a + m * b && (a + b) * m == a * m + b * m
  {
  }

  /** What the running window still owes is at most one more unit. */
  lemma PaidBounds(p: Policy, m: Table, key: string, n: nat, from: int, to: int, clock: int)
    requires Sound(p) && from <= to && Paid(p, m, key, n, from, to, clock)
    ensures n * Min(p.window, p.lockout) <= (p.maxFails + 1) * (to - from + Min(p.window, p.lockout))
  {
    var unit := Min(p.window, p.lockout);
    if key in m {
      var w := m[key];
      WindowPays(p.maxFails, w.failures, unit, p.lockout, to - w.firstFail + unit);
      AddUp(unit, n - w.failures, w.failures);
      AddUp(p.maxFails + 1, w.firstFail - from, to - w.firstFail + unit);
    } else if n == 0 {
      Scale(p.maxFails + 1, 0, to - from + unit);
    }
  }

  /** A window that goes stale has lasted long enough to pay for its failures. */
  lemma StalePays(p: Policy, m: Table, key: string, n: nat, from: int, to: int, clock: int, now: int)
    requires Sound(p) && key in m && clock <= now && from <= to
    requires Paid(p, m, key, n, from, to, clock) && Stale(p, m[key], now)
    ensures Paid(p, m - {key}, key, n, from, to, now)
  {
    PaidBounds(p, m, key, n, from, to, clock);
    var w := m[key];
    var extra := w.failures - p.maxFails;
    if LockExpired(w, now) && extra >= 0 {
      Scale(extra, 0, p.lockout);
    }
    WindowPays(p.maxFails, w.failures, Min(p.window, p.lockout), p.lockout, now - w.firstFail);
    AddUp(Min(p.window, p.lockout), n - w.failures, w.failures);
    AddUp(p.maxFails + 1, w.firstFail - from, now - w.firstFail);
  }

  lemma PaidAges(p: Policy, m: Table, key: string, n: nat, from: int, to: int, clock: int, now: int)
    requires Sound(p) && clock <= now && Paid(p, m, key, n, from, to, clock)
    ensures Paid(p, m, key, n, from, to, now)
  {
    if key !in m && n != 0 {
      Scale(p.maxFails + 1, clock - from, now - from);
    }
  }

  /** A failure without a record opens a window. */
  lemma FirstFailPays(p: Policy, m: Table, key: string, n: nat, from: int, to: int, clock: int, at: int)
    requires Sound(p) && key !in m && clock <= at && from <= at <= to
    requires Paid(p, m, key, n, from, to, clock)
    ensures Paid(p, AfterFail(p, m, key, at), key, n + 1, from, to, at)
  {
    Scale(p.maxFails + 1, 0, at - from);
    PaidAges(p, m, key, n, from, to, clock, at);
  }

  lemma FailPays(p: Policy, m: Table, granted: map<string, int>, key: string, n: nat, from: int, to: int, clock: int, at: int)
    requires Sound(p) && GrantsBacked(p, m, granted, clock) && clock <= at
    requires key in granted && granted[key] == at && from <= at <= to
    requires Paid(p, m, key, n, from, to, clock)
    ensures Paid(p, AfterFail(p, m, key, at), key, n + 1, from, to, at)
  {
    if key in m {
      var extra := m[key].failures - p.maxFails;
      if extra >= 0 {
        AddUp(p.lockout, extra, 1);
      }
    } else {
      FirstFailPays(p, m, key, n, from, to, clock, at);
    }
  }

  lemma StepPays(p: Policy, m: Table, granted: map<string, int>, key: string, n: nat, from: int, to: int, clock: int, op: Op)
    requires Sound(p) && GrantsBacked(p, m, granted, clock) && Gated(p, m, granted, clock, [op])
    requires FailuresWithin([op], key, from, to) && from <= to
    requires Paid(p, m, key, n, from, to, clock)
    ensures Paid(p, Next(p, m, op), key, n + Failures([op], key), from, to, op.at)
  {
    assert [op][0] == op;
    if op.Fail? && op.key == key {
      FailPays(p, m, granted, key, n, from, to, clock, op.at);
    } else if key in m && key !in Next(p, m, op) {
      StalePays(p, m, key, n, from, to, clock, op.at);
    } else {
      PaidAges(p, m, key, n, from, to, clock, op.at);
      assert Lookup(Next(p, m, op), key) == Lookup(m, key);
    }
  }

  lemma {:induction false} RunPays(p: Policy, m: Table, granted: map<string, int>, key: string, n: nat, from: int, to: int, clock: int, ops: seq<Op>)
    requires Sound(p) && from <= to && GrantsBacked(p, m, granted, clock) && Gated(p, m, granted, clock, ops)
    requires FailuresWithin(ops, key, from, to) && Paid(p, m, key, n, from, to, clock)
    ensures (n + Failures(ops, key)) * Min(p.window, p.lockout) <= (p.maxFails + 1) * (to - from + Min(p.window, p.lockout))
    decreases |ops|
  {
    if ops == [] {
      PaidBounds(p, m, key, n, from, to, clock);
    } else {
      var op := ops[0];
      assert [op][0] == op && [op][1..] == [];
      assert FailuresWithin([op], key, from, to) by { assert forall i :: 0 <= i < 1 ==> [op][i] == ops[i]; }
      assert FailuresWithin(ops[1..], key, from, to) by { assert forall i :: 0 <= i < |ops[1..]| ==> ops[1..][i] == ops[i + 1]; }
      assert Failures([op], key) == if op.Fail? && op.key == key then 1 else 0;
      StepPays(p, m, granted, key, n, from, to, clock, op);
      GrantsStayBacked(p, m, granted, clock, op);
      RunPays(p, Next(p, m, op), Grants(p, m, granted, op), key, n + Failures([op], key), from, to, op.at, ops[1..]);
    }
  }

  /** The amortised bound. In a gated run with no success of `key`, which has
      no record at the start, the failures counted for `key` between `from` and
      `to` grow by at most `maxFails + 1` for each window or lockout, whichever
      is shorter. */
  lemma FailuresAreBounded(p: Policy, m: Table, key: string, from: int, to: int, clock: int, ops: seq<Op>)
    requires Sound(p) && key !in m && from <= to
    requires Gated(p, m, map[], clock, ops) && FailuresWithin(ops, key, from, to)
    ensures Failures(ops, key) * Min(p.window, p.lockout) <= (p.maxFails + 1) * (to - from + Min(p.window, p.lockout))
  {
    RunPays(p, m, map[], key, 0, from, to, clock, ops);
  }

  // ---- Cleanup is unobservable, and keys are independent ----

  function WithoutSweeps(ops: seq<Op>): seq<Op> {
    if ops == [] then [] else (if ops[0].Sweep? then [] else [ops[0]]) + WithoutSweeps(ops[1..])
  }

  predicate Ordered(ops: seq<Op>, clock: int) {
    ops == [] || (clock <= ops[0].at && Ordered(ops[1..], ops[0].at))
  }

  /** `swept` is `m` without some windows that are stale by now. */
  ghost predicate SameButStale(p: Policy, swept: Table, m: Table, clock: int) {
    && (forall key :: key in swept ==> key in m && swept[key] == m[key])
    && (forall key :: key in m && key !in swept ==> Stale(p, m[key], clock))
  }

  lemma StepIgnoresStale(p: Policy, swept: Table, m: Table, granted: map<string, int>, clock: int, op: Op)
    requires SameButStale(p, swept, m, clock) && clock <= op.at
    requires GrantsBacked(p, m, granted, clock)
    requires op.Fail? ==> op.key in granted && granted[op.key] == op.at
    ensures SameButStale(p, Next(p, swept, op), if op.Sweep? then m else Next(p, m, op), op.at)
    ensures !op.Sweep? ==> Reply(p, swept, op) == Reply(p, m, op)
    ensures !op.Sweep? ==> Grants(p, swept, granted, op) == Grants(p, m, granted, op)
  {
  }

  /** Cleanup calls inserted anywhere in a gated run change no answer, and the
      run stays gated. */
  lemma {:induction false} SweepsAreUnobservable(
    p: Policy, swept: Table, m: Table, granted: map<string, int>, clock: int, from: int, ops: seq<Op>)
    requires SameButStale(p, swept, m, clock) && GrantsBacked(p, m, granted, clock)
    requires Ordered(ops, clock) && from <= clock
    requires Gated(p, m, granted, from, WithoutSweeps(ops))
    ensures Replies(p, swept, ops) == Replies(p, m, WithoutSweeps(ops))
    ensures Gated(p, swept, granted, clock, ops)
    decreases |ops|
  {
    if ops != [] {
      var op := ops[0];
      var rest := WithoutSweeps(ops[1..]);
      if op.Sweep? {
        assert WithoutSweeps(ops) == rest;
        assert GrantsBacked(p, m, granted, op.at);
        StepIgnoresStale(p, swept, m, granted, clock, op);
        SweepsAreUnobservable(p, Next(p, swept, op), m, granted, op.at, from, ops[1..]);
      } else {
        assert WithoutSweeps(ops)[0] == op && WithoutSweeps(ops)[1..] == rest;
        StepIgnoresStale(p, swept, m, granted, clock, op);
        GrantsStayBacked(p, m, granted, clock, op);
        SweepsAreUnobservable(p, Next(p, swept, op), Next(p, m, op), Grants(p, m, granted, op), op.at, op.at, ops[1..]);
      }
    }
  }

  /** From one starting table, cleanup calls inserted anywhere in a gated run
      change none of the answers that callers see. */
  lemma CleanupIsUnobservable(p: Policy, m: Table, clock: int, ops: seq<Op>)
    requires Ordered(ops, clock) && Gated(p, m, map[], clock, WithoutSweeps(ops))
    ensures Replies(p, m, ops) == Replies(p, m, WithoutSweeps(ops))
    ensures Gated(p, m, map[], clock, ops)
  {
    SweepsAreUnobservable(p, m, m, map[], clock, clock, ops);
  }

  predicate Concerns(op: Op, key: string) {
    op.Sweep? || op.key == key
  }

  function Only(ops: seq<Op>, key: string): seq<Op> {
    if ops == [] then [] else (if Concerns(ops[0], key) then [ops[0]] else []) + Only(ops[1..], key)
  }

  /** The answers given to the calls on one key. */
  function RepliesTo(p: Policy, m: Table, key: string, ops: seq<Op>): seq<bool>
    decreases |ops|
  {
    if ops == [] then []
    else (if !ops[0].Sweep? && ops[0].key == key then [Reply(p, m, ops[0])] else [])
         + RepliesTo(p, Next(p, m, ops[0]), key, ops[1..])
  }

  /** Dropping every call on other keys changes neither the answers about `key`
      nor its window, whatever the other windows were at the start. */
  lemma {:induction false} KeysAreIndependent(p: Policy, m: Table, m': Table, key: string, ops: seq<Op>)
    requires Lookup(m, key) == Lookup(m', key)
    ensures RepliesTo(p, m, key, ops) == RepliesTo(p, m', key, Only(ops, key))
    ensures Lookup(Run(p, m, ops), key) == Lookup(Run(p, m', Only(ops, key)), key)
    decreases |ops|
  {
    if ops != [] {
      var op := ops[0];
      var rest := Only(ops[1..], key);
      if Concerns(op, key) {
        assert Only(ops, key)[0] == op && Only(ops, key)[1..] == rest;
        assert !op.Sweep? ==> Reply(p, m, op) == Reply(p, m', op);
        assert Lookup(Next(p, m, op), key) == Lookup(Next(p, m', op), key);
        KeysAreIndependent(p, Next(p, m, op), Next(p, m', op), key, ops[1..]);
      } else {
        assert Only(ops, key) == rest;
        assert Lookup(Next(p, m, op), key) == Lookup(m, key);
        KeysAreIndependent(p, Next(p, m, op), m', key, ops[1..]);
      }
    }
  }
}
