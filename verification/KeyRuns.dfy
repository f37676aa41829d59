/** Runs of the keystore: tokens signed with the primary key, rotations and
    prunes in any order. */
module KeyRuns {
  import opened Common
  import opened KeyStore

  /** An access token: the key it names, the secret it is signed with and its
      expiry. */
  datatype Token = Token(kid: Kid, secret: string, expiresAt: int)

  datatype Op =
    | Sign(at: int)
    | Rotate(id: Kid, secret: string, overlap: int, at: int)
    | Prune(cutoff: int, at: int)

  /** The key table, the primary's id, all tokens ever signed and the clock. */
  datatype World = World(rows: Rows, primary: Kid, issued: set<Token>, clock: int)

  predicate OneActive(w: World) {
    Unretired(w.rows).Keys == {w.primary}
  }

  function RetireAt(overlap: int, at: int): int {
    if overlap > 0 then at + overlap else at
  }

  function Next(ttl: int, w: World, op: Op): World
    requires OneActive(w)
  {
    assert w.primary in Unretired(w.rows);
    var key := w.rows[w.primary];
    match op
    case Sign(at) => w.(issued := w.issued + {Token(w.primary, key.secret, at + ttl)}, clock := at)
    case Rotate(id, secret, overlap, at) =>
      w.(rows := Rotated(w.rows, Some(Named(w.primary, key)), Named(id, Key(secret, at, None)), RetireAt(overlap, at)),
         primary := id, clock := at)
    case Prune(cutoff, at) => w.(rows := Pruned(w.rows, cutoff), clock := at)
  }

  /** Time moves forward, new ids are new, and no prune reaches into the future. */
  predicate Enabled(w: World, op: Op) {
    && w.clock <= op.at
    && (op.Rotate? ==> op.id !in w.rows)
    && (op.Prune? ==> op.cutoff <= op.at)
  }

  lemma StepKeepsOneActive(ttl: int, w: World, op: Op)
    requires OneActive(w) && Enabled(w, op)
    ensures OneActive(Next(ttl, w, op))
  {
    var w' := Next(ttl, w, op);
    assert w.primary in Unretired(w.rows);
    forall id ensures id in Unretired(w'.rows) <==> id == w'.primary {
      assert id in Unretired(w.rows) <==> id == w.primary;
    }
  }

  ghost predicate Runs(ttl: int, w: World, ops: seq<Op>)
    requires OneActive(w)
    decreases |ops|
  {
    ops == [] ||
    (Enabled(w, ops[0]) && (StepKeepsOneActive(ttl, w, ops[0]); Runs(ttl, Next(ttl, w, ops[0]), ops[1..])))
  }

  ghost function After(ttl: int, w: World, ops: seq<Op>): (w': World)
    requires OneActive(w) && Runs(ttl, w, ops)
    ensures OneActive(w')
    decreases |ops|
  {
    if ops == [] then w
    else
      StepKeepsOneActive(ttl, w, ops[0]);
      After(ttl, Next(ttl, w, ops[0]), ops[1..])
  }

  /** The world that Bootstrap leaves when it seeds an empty table. */
  function Seeded(id: Kid, secret: string, now: int): (w: World)
    ensures OneActive(w)
  {
    var rows: Rows := map[id := Key(secret, now, None)];
    assert Unretired(rows).Keys == {id};
    World(rows, id, {}, now)
  }

  /** With one unretired key the table determines the whole cache. Its maps
      never overlap, together they are the table, and the primary is that key. */
  lemma CacheIsDetermined(w: World, active: Rows, retired: Rows, primary: Option<Named>)
    requires OneActive(w) && Mirrors(active, retired, primary, w.rows)
    ensures active.Keys !! retired.Keys && active + retired == w.rows
    ensures w.primary in w.rows && primary == Some(Named(w.primary, w.rows[w.primary]))
    ensures active == map[w.primary := w.rows[w.primary]]
  {
    assert w.primary in Unretired(w.rows);
    if primary.Some? { assert primary.value.id in Unretired(w.rows).Keys; }
  }

  /** Every rotation of the run overlaps by at least the life of a token. */
  predicate Generous(ttl: int, ops: seq<Op>) {
    forall i :: 0 <= i < |ops| && ops[i].Rotate? ==> ops[i].overlap >= ttl
  }

  /** The token's key is kept with its secret, and is not due before the token. */
  predicate Safe(w: World, t: Token) {
    && t.kid in w.rows && w.rows[t.kid].secret == t.secret
    && (w.rows[t.kid].retiredAt.Some? ==> t.expiresAt <= w.rows[t.kid].retiredAt.value)
  }

  ghost predicate Covered(ttl: int, w: World) {
    forall t :: t in w.issued ==> t.expiresAt <= w.clock + ttl && (Safe(w, t) || t.expiresAt < w.clock)
  }

  lemma StepKeepsCovered(ttl: int, w: World, op: Op)
    requires OneActive(w) && Enabled(w, op) && Covered(ttl, w) && 0 < ttl
    requires op.Rotate? ==> op.overlap >= ttl
    ensures Covered(ttl, Next(ttl, w, op))
  {
    var w' := Next(ttl, w, op);
    assert w.primary in Unretired(w.rows);
    forall t | t in w'.issued
      ensures t.expiresAt <= w'.clock + ttl && (Safe(w', t) || t.expiresAt < w'.clock)
    {
      if t in w.issued && Safe(w, t) && w.rows[t.kid].retiredAt.None? {
        assert t.kid in Unretired(w.rows);
      }
    }
  }

  /** `Lookup` finds the token's own secret; KeyStore.Find answers from the
      cache what Lookup answers from the table. */
  predicate Resolves(w: World, t: Token) {
    var found := Lookup(w.rows, t.kid);
    found.Some? && found.value.secret == t.secret
  }

  /** The overlap guarantee. After any run from bootstrap whose rotations
      overlap by at least the token life, every token ever signed still finds
      its own secret until it expires. */
  lemma {:induction false} TokensResolveUntilExpiry(ttl: int, w: World, ops: seq<Op>)
    requires 0 < ttl && OneActive(w) && Covered(ttl, w) && Runs(ttl, w, ops) && Generous(ttl, ops)
    ensures var end := After(ttl, w, ops);
      forall t :: t in end.issued && end.clock <= t.expiresAt ==> Resolves(end, t)
    decreases |ops|
  {
    if ops != [] {
      StepKeepsOneActive(ttl, w, ops[0]);
      StepKeepsCovered(ttl, w, ops[0]);
      assert Generous(ttl, ops[1..]) by {
        assert forall i :: 0 <= i < |ops[1..]| ==> ops[1..][i] == ops[i + 1];
      }
      TokensResolveUntilExpiry(ttl, Next(ttl, w, ops[0]), ops[1..]);
    }
  }

  /** From the key that Bootstrap seeds, that is every run. */
  lemma TokensResolveFromBootstrap(ttl: int, id: Kid, secret: string, now: int, ops: seq<Op>)
    requires 0 < ttl && Runs(ttl, Seeded(id, secret, now), ops) && Generous(ttl, ops)
    ensures var end := After(ttl, Seeded(id, secret, now), ops);
      forall t :: t in end.issued && end.clock <= t.expiresAt ==> Resolves(end, t)
  {
    TokensResolveUntilExpiry(ttl, Seeded(id, secret, now), ops);
  }

  /** The token of the primary signed at `signedAt` still resolves after the
      primary is rotated away and a prune has run. */
  ghost predicate Survives(ttl: int, w: World, rotation: Op, signedAt: int, prunedAt: int)
    requires OneActive(w)
  {
    var ops := [rotation, Prune(prunedAt, prunedAt)];
    assert w.primary in Unretired(w.rows);
    Runs(ttl, w, ops) && Resolves(After(ttl, w, ops), Token(w.primary, w.rows[w.primary].secret, signedAt + ttl))
  }

  lemma SurvivesIff(ttl: int, w: World, rotation: Op, signedAt: int, prunedAt: int)
    requires OneActive(w) && rotation.Rotate? && Enabled(w, rotation) && rotation.at <= prunedAt
    ensures Survives(ttl, w, rotation, signedAt, prunedAt) <==> prunedAt <= RetireAt(rotation.overlap, rotation.at)
  {
    var ops := [rotation, Prune(prunedAt, prunedAt)];
    assert w.primary in Unretired(w.rows);
    StepKeepsOneActive(ttl, w, rotation);
    var w1 := Next(ttl, w, rotation);
    assert w1.rows[w.primary] == w.rows[w.primary].(retiredAt := Some(RetireAt(rotation.overlap, rotation.at)));
    var w2 := Next(ttl, w1, ops[1]);
    StepKeepsOneActive(ttl, w1, ops[1]);
    assert ops[1..] == [ops[1]] && [ops[1]][1..] == [];
    assert Runs(ttl, w2, []) && After(ttl, w2, []) == w2;
    assert Runs(ttl, w1, [ops[1]]) && After(ttl, w1, [ops[1]]) == w2;
    assert Runs(ttl, w, ops) && After(ttl, w, ops) == w2;
    assert Lookup(w2.rows, w.primary).Some? <==> prunedAt <= RetireAt(rotation.overlap, rotation.at);
  }

  /** The overlap must be that long. Every token signed with the primary up to
      its rotation survives every prune until the token expires, if and only if
      the overlap is at least the token life. */
  lemma OverlapIsExact(ttl: int, w: World, rotation: Op)
    requires 0 < ttl && OneActive(w) && rotation.Rotate? && Enabled(w, rotation)
    ensures (forall signedAt, prunedAt :: signedAt <= rotation.at <= prunedAt <= signedAt + ttl ==> Survives(ttl, w, rotation, signedAt, prunedAt))
       <==> rotation.overlap >= ttl
  {
    forall signedAt, prunedAt | rotation.at <= prunedAt
      ensures Survives(ttl, w, rotation, signedAt, prunedAt) <==> prunedAt <= RetireAt(rotation.overlap, rotation.at)
    {
      SurvivesIff(ttl, w, rotation, signedAt, prunedAt);
    }
    if rotation.overlap < ttl {
      assert !Survives(ttl, w, rotation, rotation.at, RetireAt(rotation.overlap, rotation.at) + 1);
    }
  }

  // ---- What a rotation retires ----

  /** A rotation retires every key that was active if and only if the primary
      was the only one. */
  lemma RotationRetiresAllIff(rows: Rows, prev: Named, k: Named, retireAt: int)
    requires k.id !in rows && prev.id in rows
    ensures (forall id :: id in Unretired(rows) ==> id !in Unretired(Rotated(rows, Some(prev), k, retireAt)))
       <==> Unretired(rows).Keys <= {prev.id}
  {
    var rotated := Rotated(rows, Some(prev), k, retireAt);
    forall id | id in Unretired(rows)
      ensures id in Unretired(rotated) <==> id != prev.id
    {
      assert id in rows && id != k.id;
    }
  }

  /** How a table comes to have two. A rotation inserts the new key and fails to
      retire the primary: it returns an error, and the new key is unretired
      beside the primary. The next rotation retires the primary and leaves that
      key unretired. */
  lemma FailedRotationLeavesKey(w: World, failed: Named, next: Named, retireAt: int)
    requires OneActive(w) && failed.id !in w.rows && next.id !in w.rows && next.id != failed.id && failed.key.retiredAt == None
    ensures
      var prev := Named(w.primary, (assert w.primary in Unretired(w.rows); w.rows[w.primary]));
      var rows := w.rows[failed.id := failed.key];
      && Unretired(rows).Keys == {w.primary, failed.id}
      && failed.id in Unretired(Rotated(rows, Some(prev), next, retireAt))
  {
    assert w.primary in Unretired(w.rows);
    var rows := w.rows[failed.id := failed.key];
    forall id
      ensures id in Unretired(rows) <==> id == w.primary || id == failed.id
    {
      assert id in Unretired(w.rows) <==> id == w.primary;
    }
  }

  /** Retiring a key does not stop its tokens: whatever the overlap, even a
      non-positive one, every key of the table still resolves to its secret
      after the rotation. Only a prune drops keys, and it drops exactly those
      retired before its cutoff. */
  lemma OnlyPruneDropsKeys(rows: Rows, prev: Option<Named>, k: Named, retireAt: int, cutoff: int)
    requires k.id !in rows
    ensures forall id :: id in rows ==> id in Rotated(rows, prev, k, retireAt) && Rotated(rows, prev, k, retireAt)[id].secret == rows[id].secret
    ensures forall id :: id in rows ==>
      (id !in Pruned(rows, cutoff) <==> exists r :: rows[id].retiredAt == Some(r) && r < cutoff)
  {
    forall id | id in rows
      ensures id !in Pruned(rows, cutoff) <==> exists r :: rows[id].retiredAt == Some(r) && r < cutoff
    {
      if id !in Pruned(rows, cutoff) {
        assert rows[id].retiredAt == Some(rows[id].retiredAt.value);
      }
    }
  }
}
