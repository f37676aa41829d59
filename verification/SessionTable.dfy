/** The sessions table as internal/db/session_repository.go and
    internal/db/queries/sessions.sql use it. One statement is one method; the
    columns that only get copied (device, address) are not part of the row. */
module SessionTable {
  import opened Common

  type Id = string
  type Token = string

  /** `hashToken` is injective and never yields the empty string, which the
      table stores for "no previous token". */
  datatype Hash = NoHash | HashOf(token: Token)

  datatype Session = Session(
    userId: string, hash: Hash, previous: Hash, createdAt: int, lastActive: int, expiresAt: int)

  type Rows = map<Id, Session>

  /** The rows and, for every refresh token ever stored, the session it was
      minted for. */
  datatype Db = Db(rows: Rows, lineage: map<Token, Id>)

  /** Every stored hash belongs to its own row. */
  ghost predicate Consistent(db: Db) {
    forall id :: id in db.rows ==>
      var s := db.rows[id];
      && s.hash.HashOf? && s.hash.token in db.lineage && db.lineage[s.hash.token] == id
      && s.hash != s.previous
      && (s.previous.HashOf? ==> s.previous.token in db.lineage && db.lineage[s.previous.token] == id)
  }

  function UserRows(rows: Rows, user: string): set<Id> {
    set id | id in rows && rows[id].userId == user
  }

  /** ORDER BY last_active_at ASC, created_at ASC. */
  predicate NoMoreActive(a: Session, b: Session) {
    a.lastActive < b.lastActive || (a.lastActive == b.lastActive && a.createdAt <= b.createdAt)
  }

  /** A row that ORDER BY ... LIMIT 1 may return for this user. */
  predicate LeastActive(rows: Rows, user: string, id: Id) {
    id in UserRows(rows, user) && forall other :: other in UserRows(rows, user) ==> NoMoreActive(rows[id], rows[other])
  }

  ghost predicate Holds(rows: Rows, id: Id, token: Token) {
    id in rows && rows[id].hash == HashOf(token)
  }

  ghost predicate Remembers(rows: Rows, id: Id, token: Token) {
    id in rows && rows[id].previous == HashOf(token)
  }

  ghost function CurrentRow(rows: Rows, token: Token): (o: Option<Id>)
    ensures o.Some? ==> Holds(rows, o.value, token)
    ensures o.None? ==> forall id :: !Holds(rows, id, token)
  {
    if exists id :: Holds(rows, id, token) then var id :| Holds(rows, id, token); Some(id) else None
  }

  ghost function PreviousRow(rows: Rows, token: Token): (o: Option<Id>)
    ensures o.Some? ==> Remembers(rows, o.value, token)
    ensures o.None? ==> forall id :: !Remembers(rows, id, token)
  {
    if exists id :: Remembers(rows, id, token) then var id :| Remembers(rows, id, token); Some(id) else None
  }

  function Rotated(s: Session, minted: Token, at: int, expiresAt: int): Session {
    s.(previous := s.hash, hash := HashOf(minted), lastActive := at, expiresAt := expiresAt)
  }

  function SetOf(ids: seq<Id>): set<Id> {
    set id | id in ids
  }

  /** Some row is least active whenever the user has one. */
  lemma LeastActiveExists(rows: Rows, user: string, ids: set<Id>) returns (id: Id)
    requires ids != {} && ids <= UserRows(rows, user)
    ensures id in ids && forall other :: other in ids ==> NoMoreActive(rows[id], rows[other])
    decreases |ids|
  {
    var some :| some in ids;
    id := some;
    var rest := ids - {some};
    if rest != {} {
      var best := LeastActiveExists(rows, user, rest);
      if !NoMoreActive(rows[some], rows[best]) { id := best; }
      forall other | other in rest
        ensures NoMoreActive(rows[id], rows[other])
      {
        assert NoMoreActive(rows[best], rows[other]);
      }
    }
    forall other | other in ids
      ensures NoMoreActive(rows[id], rows[other])
    {
      assert other == some || other in rest;
    }
  }

  class SessionRepository {
    var rows: Rows
    ghost var lineage: map<Token, Id>

    ghost function State(): Db
      reads this
    {
      Db(rows, lineage)
    }

    constructor ()
      ensures State() == Db(map[], map[])
    {
      rows, lineage := map[], map[];
    }

    method Create(id: Id, s: Session)
      requires id !in rows && s.hash.HashOf?
      modifies this
      ensures State() == Db(old(rows)[id := s], old(lineage)[s.hash.token := id])
    {
      rows := rows[id := s];
      lineage := lineage[s.hash.token := id];
    }

    method GetByRefreshTokenHash(hash: Hash) returns (found: Option<Id>)
      ensures found.Some? ==> found.value in rows && rows[found.value].hash == hash
      ensures found.None? ==> forall id :: id in rows ==> rows[id].hash != hash
    {
      var matches := set id | id in rows && rows[id].hash == hash;
      if matches == {} {
        assert forall id :: id in rows ==> id !in matches;
        return None;
      }
      var id :| id in matches;
      return Some(id);
    }

    method GetByPreviousRefreshTokenHash(hash: Hash) returns (found: Option<Id>)
      ensures found.Some? ==> hash != NoHash && found.value in rows && rows[found.value].previous == hash
      ensures found.None? && hash != NoHash ==> forall id :: id in rows ==> rows[id].previous != hash
    {
      if hash == NoHash {
        return None;
      }
      var matches := set id | id in rows && rows[id].previous == hash;
      if matches == {} {
        assert forall id :: id in rows ==> id !in matches;
        return None;
      }
      var id :| id in matches;
      return Some(id);
    }

    method DeleteByID(id: Id)
      modifies `rows
      ensures rows == old(rows) - {id}
    {
      rows := rows - {id};
    }

    method DeleteByRefreshTokenHash(hash: Hash)
      modifies `rows
      ensures rows == map id | id in old(rows) && old(rows)[id].hash != hash :: old(rows)[id]
    {
      rows := map id | id in rows && rows[id].hash != hash :: rows[id];
    }

    method CountByUser(user: string) returns (n: nat)
      ensures n == |UserRows(rows, user)|
    {
      n := |UserRows(rows, user)|;
    }

    method DeleteOldestByUser(user: string) returns (ghost victim: Option<Id>)
      modifies `rows
      ensures victim.None? <==> UserRows(old(rows), user) == {}
      ensures victim.None? ==> rows == old(rows)
      ensures victim.Some? ==> LeastActive(old(rows), user, victim.value) && rows == old(rows) - {victim.value}
    {
      var mine := UserRows(rows, user);
      if mine == {} {
        return None;
      }
      ghost var w := LeastActiveExists(rows, user, mine);
      assert LeastActive(rows, user, w);
      var id :| id in mine && LeastActive(rows, user, id);
      victim := Some(id);
      rows := rows - {id};
    }

    method DeleteAllByUser(user: string)
      modifies `rows
      ensures rows == old(rows) - UserRows(old(rows), user)
    {
      rows := rows - UserRows(rows, user);
    }

    method DeleteExpired(now: int)
      modifies `rows
      ensures rows == map id | id in old(rows) && !(old(rows)[id].expiresAt < now) :: old(rows)[id]
    {
      rows := map id | id in rows && !(rows[id].expiresAt < now) :: rows[id];
    }

    method RotateRefreshToken(id: Id, minted: Token, at: int, expiresAt: int)
      requires id in rows
      modifies this
      ensures State() == Db(old(rows)[id := Rotated(old(rows)[id], minted, at, expiresAt)], old(lineage)[minted := id])
    {
      rows := rows[id := Rotated(rows[id], minted, at, expiresAt)];
      lineage := lineage[minted := id];
    }
  }
}
