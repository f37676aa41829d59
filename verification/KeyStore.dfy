/** The JWT signing keys of internal/auth/keystore.go: a table of keys, a cache
    of it that every mutation rebuilds, and rotation with an overlap. A `kid`
    (section 4.1.4 of RFC 7515) names the key of a token, and `exp` (section
    4.1.4 of RFC 7519) bounds its life. */
module KeyStore {
  import opened Common

  type Kid = string

  datatype Key = Key(secret: string, createdAt: int, retiredAt: Option<int>)
  datatype Named = Named(id: Kid, key: Key)

  type Rows = map<Kid, Key>

  function Unretired(rows: Rows): Rows {
    map id | id in rows && rows[id].retiredAt.None? :: rows[id]
  }

  function Retired(rows: Rows): Rows {
    map id | id in rows && rows[id].retiredAt.Some? :: rows[id]
  }

  /** The two parts of the cache share no key and together are the table, and a
      key is in the retired one if and only if it has a retirement time. */
  lemma CacheSplitsTable(rows: Rows)
    ensures Unretired(rows).Keys !! Retired(rows).Keys && Unretired(rows) + Retired(rows) == rows
    ensures forall id :: id in rows ==> (id in Retired(rows) <==> rows[id].retiredAt != None)
  {
  }

  predicate Newest(rows: Rows, k: Named) {
    k.id in rows && rows[k.id] == k.key && forall id :: id in rows ==> rows[id].createdAt <= k.key.createdAt
  }

  /** ORDER BY created_at DESC over exactly the given rows, ties in any order. */
  ghost predicate Lists(list: seq<Named>, rows: Rows) {
    && (forall i, j :: 0 <= i < j < |list| ==> list[i].key.createdAt >= list[j].key.createdAt && list[i].id != list[j].id)
    && (forall i :: 0 <= i < |list| ==> list[i].id in rows && rows[list[i].id] == list[i].key)
    && (forall id :: id in rows ==> Named(id, rows[id]) in list)
  }

  lemma FirstIsNewest(list: seq<Named>, rows: Rows)
    requires Lists(list, rows)
    ensures list == [] <==> rows == map[]
    ensures list != [] ==> Newest(rows, list[0])
  {
    if list != [] {
      assert list[0].id in rows;
    }
  }

  lemma NewestExists(rows: Rows) returns (id: Kid)
    requires rows != map[]
    ensures id in rows && Newest(rows, Named(id, rows[id]))
    decreases |rows|
  {
    id :| id in rows.Keys;
    var rest := rows - {id};
    if rest != map[] {
      var best := NewestExists(rest);
      if rows[id].createdAt < rows[best].createdAt { id := best; }
    }
    assert forall other :: other in rows ==> other == id || other in rest || rows[other].createdAt <= rows[id].createdAt;
  }

  lemma ListsMore(k: Named, list: seq<Named>, rows: Rows)
    requires Newest(rows, k) && Lists(list, rows - {k.id})
    ensures Lists([k] + list, rows)
  {
    var more := [k] + list;
    forall id | id in rows ensures Named(id, rows[id]) in more {
      if id == k.id { assert more[0] == Named(id, rows[id]); }
      else { assert Named(id, (rows - {k.id})[id]) in list; }
    }
  }

  method ListNewestFirst(rows: Rows) returns (list: seq<Named>)
    ensures Lists(list, rows)
    decreases |rows|
  {
    if rows == map[] {
      return [];
    }
    ghost var w := NewestExists(rows);
    var id :| id in rows.Keys && Newest(rows, Named(id, rows[id]));
    list := ListNewestFirst(rows - {id});
    ListsMore(Named(id, rows[id]), list, rows);
    list := [Named(id, rows[id])] + list;
  }

  /** The map a loop over the list builds. */
  function MapOf(list: seq<Named>): Rows {
    if list == [] then map[] else MapOf(list[..|list| - 1])[list[|list| - 1].id := list[|list| - 1].key]
  }

  lemma {:induction false} MapOfLookup(list: seq<Named>)
    requires forall i, j :: 0 <= i < j < |list| ==> list[i].id != list[j].id
    ensures forall id :: id in MapOf(list) ==> Named(id, MapOf(list)[id]) in list
    ensures forall k :: k in list ==> k.id in MapOf(list) && MapOf(list)[k.id] == k.key
  {
    if list != [] {
      var before := list[..|list| - 1];
      MapOfLookup(before);
      assert list == before + [list[|list| - 1]];
    }
  }

  lemma MapOfLists(list: seq<Named>, rows: Rows)
    requires Lists(list, rows)
    ensures MapOf(list) == rows
  {
    MapOfLookup(list);
    forall id | id in MapOf(list) ensures id in rows && rows[id] == MapOf(list)[id] {
      assert Named(id, MapOf(list)[id]) in list;
    }
    forall id | id in rows ensures id in MapOf(list) {
      assert Named(id, rows[id]) in list;
    }
  }

  class SigningKeyRepository {
    var rows: Rows

    constructor ()
      ensures rows == map[]
    {
      rows := map[];
    }

    method Insert(id: Kid, k: Key)
      requires id !in rows
      modifies this
      ensures rows == old(rows)[id := k]
    {
      rows := rows[id := k];
    }

    method ListActive() returns (list: seq<Named>)
      ensures Lists(list, Unretired(rows))
    {
      list := ListNewestFirst(Unretired(rows));
    }

    method ListAll() returns (list: seq<Named>)
      ensures Lists(list, rows)
    {
      list := ListNewestFirst(rows);
    }

    method SetRetiredAt(id: Kid, at: int) returns (ok: bool)
      modifies this
      ensures ok == (id in old(rows))
      ensures rows == if ok then old(rows)[id := old(rows)[id].(retiredAt := Some(at))] else old(rows)
    {
      if id !in rows {
        return false;
      }
      rows := rows[id := rows[id].(retiredAt := Some(at))];
      return true;
    }

    method DeleteRetiredBefore(cutoff: int) returns (n: nat)
      modifies this
      ensures rows == Pruned(old(rows), cutoff)
      ensures n == |old(rows)| - |rows| && (n == 0 <==> rows == old(rows))
    {
      var gone := set id | id in rows && rows[id].retiredAt.Some? && rows[id].retiredAt.value < cutoff;
      n := |gone|;
      ghost var was := rows;
      rows := rows - gone;
      assert gone <= was.Keys && rows.Keys == was.Keys - gone;
      if n != 0 {
        var id :| id in gone;
        assert id in was && id !in rows;
      }
    }
  }

  function Pruned(rows: Rows, cutoff: int): Rows {
    map id | id in rows && !(rows[id].retiredAt.Some? && rows[id].retiredAt.value < cutoff) :: rows[id]
  }

  /** The cache mirrors the table: its two maps are the unretired and the
      retired rows, and the primary is a newest unretired key. */
  ghost predicate Mirrors(active: Rows, retired: Rows, primary: Option<Named>, rows: Rows) {
    && active == Unretired(rows) && retired == Retired(rows)
    && (primary.None? <==> Unretired(rows) == map[])
    && (primary.Some? ==> Newest(Unretired(rows), primary.value))
  }

  class KeyStore {
    const repo: SigningKeyRepository
    var active: Rows
    var retired: Rows
    var primary: Option<Named>

    ghost predicate Coherent()
      reads this, repo
    {
      Mirrors(active, retired, primary, repo.rows)
    }

    constructor (repo: SigningKeyRepository)
      ensures this.repo == repo && active == map[] && retired == map[] && primary == None
    {
      this.repo := repo;
      active, retired, primary := map[], map[], None;
    }

    /** Fails when the table holds no unretired key. */
    static method Open(repo: SigningKeyRepository) returns (ks: Option<KeyStore>)
      ensures ks.Some? ==> fresh(ks.value) && ks.value.repo == repo && ks.value.Coherent() && ks.value.primary.Some?
      ensures ks.None? <==> Unretired(repo.rows) == map[]
    {
      var store := new KeyStore(repo);
      store.Reload();
      if store.primary.None? {
        return None;
      }
      return Some(store);
    }

    /** Seeds an empty table, and only an empty one, with a first key. */
    static method Bootstrap(repo: SigningKeyRepository, id: Kid, seed: string, random: string, now: int) returns (k: Named)
      modifies repo
      ensures old(repo.rows) != map[] ==> repo.rows == old(repo.rows) && Newest(repo.rows, k)
      ensures old(repo.rows) == map[] ==>
                k == Named(id, Key(if seed == "" then random else seed, now, None)) && repo.rows == map[id := k.key]
    {
      var existing := repo.ListAll();
      FirstIsNewest(existing, repo.rows);
      if |existing| > 0 {
        return existing[0];
      }
      var secret := seed;
      if secret == "" {
        secret := random;
      }
      k := Named(id, Key(secret, now, None));
      repo.Insert(id, k.key);
    }

    static method ActiveMap(actives: seq<Named>) returns (m: Rows)
      ensures m == MapOf(actives)
    {
      m := map[];
      for i := 0 to |actives|
        invariant m == MapOf(actives[..i])
      {
        assert actives[..i + 1][..i] == actives[..i];
        m := m[actives[i].id := actives[i].key];
      }
      assert actives[..|actives|] == actives;
    }

    static method RetiredMap(all: seq<Named>) returns (m: Rows)
      requires forall j, k :: 0 <= j < k < |all| ==> all[j].id != all[k].id
      ensures m == Retired(MapOf(all))
    {
      m := map[];
      for i := 0 to |all|
        invariant m == Retired(MapOf(all[..i]))
      {
        assert all[..i + 1][..i] == all[..i];
        NoRepeat(all, i);
        if all[i].key.retiredAt.Some? {
          m := m[all[i].id := all[i].key];
        }
      }
      assert all[..|all|] == all;
    }

    method Reload()
      modifies this
      ensures Coherent()
    {
      var actives := repo.ListActive();
      var all := repo.ListAll();
      var activeMap := ActiveMap(actives);
      var retiredMap := RetiredMap(all);
      MapOfLists(actives, Unretired(repo.rows));
      MapOfLists(all, repo.rows);
      FirstIsNewest(actives, Unretired(repo.rows));
      active := activeMap;
      retired := retiredMap;
      primary := if |actives| > 0 then Some(actives[0]) else None;
    }

    method Current() returns (k: Option<Named>)
      ensures k == primary
    {
      return primary;
    }

    /** An active key wins over a retired one. */
    method Find(kid: Kid) returns (k: Option<Key>)
      requires Coherent()
      ensures k == Lookup(repo.rows, kid)
    {
      if kid in active {
        return Some(active[kid]);
      }
      if kid in retired {
        return Some(retired[kid]);
      }
      return None;
    }

    /** `id` and `secret` are the new uuid and random secret; `retires` says
        whether the retirement of the previous primary reaches the table. When
        it does not, the new key is already there and the cache is not rebuilt. */
    method Rotate(id: Kid, secret: string, overlap: int, now: int, retires: bool) returns (k: Option<Named>)
      requires id !in repo.rows && (primary.Some? ==> primary.value.id in repo.rows)
      modifies this, repo
      ensures k.None? <==> old(primary).Some? && !retires
      ensures k.Some? ==> Coherent() && k.value == Named(id, Key(secret, now, None))
      ensures k.Some? ==> repo.rows == Rotated(old(repo.rows), old(primary), k.value, if overlap > 0 then now + overlap else now)
      ensures k.None? ==> repo.rows == old(repo.rows)[id := Key(secret, now, None)]
      ensures k.None? ==> active == old(active) && retired == old(retired) && primary == old(primary)
    {
      var minted := Named(id, Key(secret, now, None));
      repo.Insert(id, minted.key);
      var prev := Current();
      if prev.Some? {
        var retireAt := now;
        if overlap > 0 {
          retireAt := now + overlap;
        }
        if !retires {
          return None;
        }
        var ok := repo.SetRetiredAt(prev.value.id, retireAt);
        assert ok;
      }
      Reload();
      return Some(minted);
    }

    method Prune(cutoff: int) returns (n: nat)
      requires Coherent()
      modifies this, repo
      ensures Coherent() && repo.rows == Pruned(old(repo.rows), cutoff)
      ensures n == |old(repo.rows)| - |repo.rows|
    {
      n := repo.DeleteRetiredBefore(cutoff);
      if n > 0 {
        Reload();
      }
    }
  }

  function Rotated(rows: Rows, prev: Option<Named>, k: Named, retireAt: int): Rows {
    var inserted := rows[k.id := k.key];
    if prev.Some? && prev.value.id in inserted
    then inserted[prev.value.id := inserted[prev.value.id].(retiredAt := Some(retireAt))]
    else inserted
  }

  /** On any table, leftover unretired keys included, the key a rotation minted
      signs from then on, when it is younger than every key before it. */
  lemma MintedKeySigns(rows: Rows, prev: Option<Named>, k: Named, retireAt: int, active: Rows, retired: Rows, primary: Option<Named>)
    requires k.id !in rows && k.key.retiredAt.None? && (prev.Some? ==> prev.value.id in rows)
    requires forall id :: id in rows ==> rows[id].createdAt < k.key.createdAt
    requires Mirrors(active, retired, primary, Rotated(rows, prev, k, retireAt))
    ensures primary == Some(k)
  {
    assert k.id in Unretired(Rotated(rows, prev, k, retireAt));
  }

  lemma NoRepeat(list: seq<Named>, i: nat)
    requires i < |list| && forall j, k :: 0 <= j < k < |list| ==> list[j].id != list[k].id
    ensures list[i].id !in MapOf(list[..i])
  {
    MapOfLookup(list[..i]);
  }
}
