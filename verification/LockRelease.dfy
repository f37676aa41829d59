/** What an expired lock of the limiter leaves behind: nothing, once a check or a
    cleanup has seen it expired, even while the window it was earned in runs. */
module LockRelease {
  import opened Common
  import opened RateLimit

  /** `n` failures from `start` to `end` are what the key has on record. */
  ghost predicate HasFailed(p: Policy, m: Table, key: string, n: nat, start: int, end: int) {
    && key in m && m[key].failures == n && m[key].firstFail == start
    && m[key].lockedUntil == if n >= p.maxFails then Some(end + p.lockout) else None
  }

  /** A check of the key or a cleanup. */
  predicate Looks(op: Op, key: string) { op.Sweep? || op == Check(key, op.at) }

  /** Once an expired lock has been looked at, the failures from then on are
      counted alone, from the first of them, and lock at the limit again. */
  lemma ExpiredLockIsForgotten(p: Policy, m: Table, key: string, look: Op, times: seq<int>)
    requires key in m && m[key].lockedUntil.Some? && m[key].lockedUntil.value < look.at && Looks(look, key)
    requires times != [] && forall i :: 0 <= i < |times| ==> times[i] - times[0] <= p.window
    ensures !Reply(p, m, look)
    ensures HasFailed(p, Run(p, m, [look] + FailAt(key, times)), key, |times|, times[0], times[|times| - 1])
  {
    RunAppend(p, m, [look], FailAt(key, times));
    assert [look][1..] == [];
    FailuresAccumulate(p, Next(p, m, look), key, times);
  }

  /** The same from no record at all: enough failures within one window lock the
      key; a look after the lock, and the count starts anew. */
  lemma CountStartsAnew(p: Policy, m: Table, key: string, earlier: seq<int>, look: Op, times: seq<int>)
    requires key !in m && earlier != [] && |earlier| >= p.maxFails
    requires forall i :: 0 <= i < |earlier| ==> earlier[i] - earlier[0] <= p.window
    requires Looks(look, key) && earlier[|earlier| - 1] + p.lockout < look.at
    requires times != [] && forall i :: 0 <= i < |times| ==> times[i] - times[0] <= p.window
    ensures HasFailed(p, Run(p, m, FailAt(key, earlier) + ([look] + FailAt(key, times))), key, |times|, times[0], times[|times| - 1])
  {
    RunAppend(p, m, FailAt(key, earlier), [look] + FailAt(key, times));
    FailuresAccumulate(p, m, key, earlier);
    ExpiredLockIsForgotten(p, Run(p, m, FailAt(key, earlier)), key, look, times);
  }

  /** While the window runs, a check and then one failure lock the key again if
      and only if the check comes no later than the instant the lock ends, when
      the key is not refused any more. */
  lemma OneFailureLocksAgainIff(p: Policy, m: Table, key: string, earlier: seq<int>, now: int)
    requires key !in m && 2 <= p.maxFails <= |earlier|
    requires forall i :: 0 <= i < |earlier| ==> earlier[i] - earlier[0] <= p.window
    requires now - earlier[0] <= p.window && 0 <= p.window
    ensures var ops := FailAt(key, earlier) + [Check(key, now)];
      Reply(p, Run(p, m, ops), Fail(key, now)) <==> now <= earlier[|earlier| - 1] + p.lockout
  {
    RunAppend(p, m, FailAt(key, earlier), [Check(key, now)]);
    assert [Check(key, now)][1..] == [];
    FailuresAccumulate(p, m, key, earlier);
  }
}
