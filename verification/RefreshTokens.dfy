/** The refresh-token table, its statements, and the service run one call at a time. */
module RefreshTokens {
  import opened Options

  datatype Role = Admin | User

  datatype Owner = Owner(userId: int, role: Role)

  /** SHA-256 of a token, taken to be injective. */
  datatype Digest = Digest(token: string)

  datatype Row = Row(
    hash: Digest,
    owner: Owner,
    expiresAt: int,
    revokedAt: Option<int>,
    lastUsedAt: Option<int>,
    replacedBy: Option<nat>)

  /** Rows by generated id; times are milliseconds on one clock. */
  datatype Table = Table(rows: map<nat, Row>, nextId: nat)

  const EMPTY := Table(map[], 1)

  // ---------- Statements ----------

  ghost predicate UniqueHashes(rows: map<nat, Row>) {
    forall i, j :: i in rows && j in rows && rows[i].hash == rows[j].hash ==> i == j
  }

  /** Ids are below the next one, and the hash index is unique. */
  ghost predicate Sound(t: Table) {
    UniqueHashes(t.rows) && forall id :: id in t.rows ==> id < t.nextId
  }

  ghost predicate Taken(rows: map<nat, Row>, hash: Digest) {
    exists id :: id in rows && rows[id].hash == hash
  }

  /** findByToken: hashes are unique, so there is at most one such row. */
  ghost function Find(rows: map<nat, Row>, hash: Digest): (r: Option<nat>)
    ensures r.Some? ==> r.value in rows && rows[r.value].hash == hash
    ensures r.None? ==> !Taken(rows, hash)
  {
    if id :| id in rows && rows[id].hash == hash then Some(id) else None
  }

  function NewRow(hash: Digest, owner: Owner, expiresAt: int): Row {
    Row(hash, owner, expiresAt, None, None, None)
  }

  /** An insert takes an id even when the unique hash index refuses the row. */
  ghost function Insert(t: Table, row: Row): Table {
    Table(if Taken(t.rows, row.hash) then t.rows else t.rows[t.nextId := row], t.nextId + 1)
  }

  function Revoked(r: Row, at: int): Row {
    r.(revokedAt := Some(at))
  }

  /** revoke: whatever the row's state. */
  function RevokeOne(rows: map<nat, Row>, id: nat, at: int): map<nat, Row> {
    if id in rows then rows[id := Revoked(rows[id], at)] else rows
  }

  function RevokedIfOwned(r: Row, owner: Owner, at: int): Row {
    if r.owner == owner && r.revokedAt.None? then Revoked(r, at) else r
  }

  /** revokeAllForUser: only rows not yet revoked. */
  function RevokeAll(rows: map<nat, Row>, owner: Owner, at: int): map<nat, Row> {
    map id | id in rows :: RevokedIfOwned(rows[id], owner, at)
  }

  /** deleteExpiredBefore: a row that expires exactly now stays. */
  function DeleteExpired(rows: map<nat, Row>, now: int): map<nat, Row> {
    map id | id in rows && rows[id].expiresAt >= now :: rows[id]
  }

  function Replaced(r: Row, next: nat, at: int): Row {
    r.(revokedAt := Some(at), replacedBy := Some(next), lastUsedAt := Some(at))
  }

  /**
   * The transaction: insert the new row, then revoke the old one if it is still unrevoked;
   * if that touches no row, everything but the used-up id is rolled back.
   */
  ghost function Exchange(t: Table, used: nat, row: Row, at: int): (Table, bool) {
    if !Taken(t.rows, row.hash) && used in t.rows && t.rows[used].revokedAt.None?
    then (Table(t.rows[t.nextId := row][used := Replaced(t.rows[used], t.nextId, at)], t.nextId + 1), true)
    else (Table(t.rows, t.nextId + 1), false)
  }

  // ---------- Specification ----------

  datatype Verdict = Reuse | Reject | Accept

  function Judge(r: Row, now: int): Verdict {
    if r.revokedAt.Some? && r.replacedBy.Some? then Reuse
    else if r.revokedAt.Some? || r.expiresAt <= now then Reject
    else Accept
  }

  datatype Outcome = Invalid | Rotated(owner: Owner, expiresAt: int)

  function Expiry(ttl: nat, now: int): int {
    now + ttl * 1000
  }

  /** rotate, undisturbed; `minted` is the generated token. */
  ghost function RotateStep(ttl: nat, t: Table, token: string, minted: string, now: int): (Table, Outcome) {
    if token == "" then (t, Invalid)
    else
      match Find(t.rows, Digest(token))
      case None => (t, Invalid)
      case Some(id) => RotateRow(ttl, t, id, t.rows[id], minted, now)
  }

  ghost function RotateRow(ttl: nat, t: Table, id: nat, row: Row, minted: string, now: int): (Table, Outcome) {
    match Judge(row, now)
    case Reuse => (Table(RevokeAll(t.rows, row.owner, now), t.nextId), Invalid)
    case Reject => (t, Invalid)
    case Accept =>
      var (out, done) := Exchange(t, id, NewRow(Digest(minted), row.owner, Expiry(ttl, now)), now);
      (out, if done then Rotated(row.owner, Expiry(ttl, now)) else Invalid)
  }

  /** revoke, undisturbed. */
  ghost function LogoutStep(t: Table, token: string, now: int): Table {
    match Find(t.rows, Digest(token))
    case None => t
    case Some(id) => if t.rows[id].revokedAt.Some? then t else Table(RevokeOne(t.rows, id, now), t.nextId)
  }

  // ---------- What a caller is told ----------

  /** The row of the presented token, unrevoked and unexpired. */
  ghost predicate Presents(rows: map<nat, Row>, token: string, now: int, id: nat) {
    id in rows && rows[id].hash == Digest(token) && rows[id].revokedAt.None? && rows[id].expiresAt > now
  }

  /**
   * The new table: the presented row is spent in favour of a new row of the same owner, with
   * the digest of the generated token and the full lifetime, and nothing else changes.
   */
  ghost predicate Exchanges(ttl: nat, t: Table, out: Table, id: nat, minted: string, now: int)
    requires id in t.rows
  {
    && out.nextId == t.nextId + 1 && out.rows.Keys == t.rows.Keys + {t.nextId}
    && out.rows[t.nextId] == Row(Digest(minted), t.rows[id].owner, now + 1000 * ttl, None, None, None)
    && out.rows[id] == Row(t.rows[id].hash, t.rows[id].owner, t.rows[id].expiresAt, Some(now), Some(now), Some(t.nextId))
    && forall k :: k in t.rows && k != id ==> out.rows[k] == t.rows[k]
  }

  lemma FindUnique(rows: map<nat, Row>, hash: Digest, id: nat)
    requires UniqueHashes(rows) && id in rows && rows[id].hash == hash
    ensures Find(rows, hash) == Some(id)
  {
  }

  /** A presented token that is live is exchanged, and the caller is told its own owner. */
  lemma LiveRotates(ttl: nat, t: Table, token: string, minted: string, now: int, id: nat)
    requires Sound(t) && token != "" && Presents(t.rows, token, now, id) && !Taken(t.rows, Digest(minted))
    ensures RotateStep(ttl, t, token, minted, now).1 == Rotated(t.rows[id].owner, now + 1000 * ttl)
    ensures Exchanges(ttl, t, RotateStep(ttl, t, token, minted, now).0, id, minted, now)
  {
    FindUnique(t.rows, Digest(token), id);
  }

  /** A rotation succeeds exactly for a live token and an unused generated one. */
  lemma RotatedIff(ttl: nat, t: Table, token: string, minted: string, now: int)
    requires Sound(t)
    ensures RotateStep(ttl, t, token, minted, now).1.Rotated?
       <==> token != "" && !Taken(t.rows, Digest(minted)) && exists id :: Presents(t.rows, token, now, id)
  {
    if id :| Presents(t.rows, token, now, id) {
      FindUnique(t.rows, Digest(token), id);
    } else if Find(t.rows, Digest(token)).Some? {
      assert !Presents(t.rows, token, now, Find(t.rows, Digest(token)).value);
    }
  }

  /** And then it reports the owner of the presented token and hands over the new one. */
  lemma RotatedReports(ttl: nat, t: Table, token: string, minted: string, now: int, o: Owner, e: int) returns (id: nat)
    requires Sound(t) && RotateStep(ttl, t, token, minted, now).1 == Rotated(o, e)
    ensures Presents(t.rows, token, now, id) && o == t.rows[id].owner && e == now + 1000 * ttl
    ensures Exchanges(ttl, t, RotateStep(ttl, t, token, minted, now).0, id, minted, now)
  {
    id := Find(t.rows, Digest(token)).value;
    assert Presents(t.rows, token, now, id);
  }

  /** A refused rotation: reuse of a replaced token revokes its owner's tokens; every other refusal leaves the rows alone. */
  lemma RefusedRotation(ttl: nat, t: Table, token: string, minted: string, now: int)
    requires Sound(t) && RotateStep(ttl, t, token, minted, now).1 == Invalid
    ensures var out := RotateStep(ttl, t, token, minted, now).0;
            if id :| id in t.rows && t.rows[id].hash == Digest(token) && token != "" && t.rows[id].revokedAt.Some? && t.rows[id].replacedBy.Some?
            then
              && out.nextId == t.nextId && out.rows.Keys == t.rows.Keys
              && forall k :: k in t.rows ==>
                   out.rows[k] == if t.rows[k].owner == t.rows[id].owner && t.rows[k].revokedAt.None?
                                  then t.rows[k].(revokedAt := Some(now)) else t.rows[k]
            else out.rows == t.rows
  {
    if id :| id in t.rows && t.rows[id].hash == Digest(token) && token != "" {
      FindUnique(t.rows, Digest(token), id);
    }
  }

  /** A logout revokes the presented token, if it is there and unrevoked, and nothing else. */
  lemma LogoutRevokes(t: Table, token: string, now: int)
    requires Sound(t)
    ensures var out := LogoutStep(t, token, now);
            && out.nextId == t.nextId && out.rows.Keys == t.rows.Keys
            && forall k :: k in t.rows ==>
                 out.rows[k] == if t.rows[k].hash == Digest(token) && t.rows[k].revokedAt.None?
                                then t.rows[k].(revokedAt := Some(now)) else t.rows[k]
  {
    if id :| id in t.rows && t.rows[id].hash == Digest(token) {
      FindUnique(t.rows, Digest(token), id);
    }
  }

  // ---------- The repository and the service ----------

  class RefreshTokenRepository {
    var rows: map<nat, Row>
    var nextId: nat

    constructor ()
      ensures State() == EMPTY
    {
      rows, nextId := map[], 1;
    }

    function State(): Table
      reads this
    {
      Table(rows, nextId)
    }

    method FindByToken(token: string) returns (r: Option<nat>)
      requires UniqueHashes(rows)
      ensures r == Find(rows, Digest(token))
    {
      if id :| id in rows && rows[id].hash == Digest(token) {
        r := Some(id);
      } else {
        r := None;
      }
    }

    method Save(row: Row) returns (saved: Option<nat>)
      modifies this
      ensures State() == Insert(old(State()), row)
      ensures saved == if Taken(old(rows), row.hash) then None else Some(old(nextId))
    {
      var id := nextId;
      nextId := nextId + 1;
      if other :| other in rows && rows[other].hash == row.hash {
        return None;
      }
      rows := rows[id := row];
      return Some(id);
    }

    /** Stamps the one row, whatever its state. */
    method Revoke(id: nat, at: int)
      modifies `rows
      ensures rows == RevokeOne(old(rows), id, at)
      ensures rows.Keys == old(rows).Keys
      ensures forall k :: k in rows ==> rows[k] == if k == id then old(rows)[k].(revokedAt := Some(at)) else old(rows)[k]
    {
      rows := RevokeOne(rows, id, at);
    }

    /** Stamps exactly the owner's rows that were unrevoked. */
    method RevokeAllForUser(owner: Owner, at: int)
      modifies `rows
      ensures rows == RevokeAll(old(rows), owner, at)
      ensures rows.Keys == old(rows).Keys
      ensures forall k :: k in rows && rows[k].owner == owner ==> rows[k].revokedAt.Some?
      ensures forall k :: k in rows ==>
                rows[k] == if old(rows)[k].owner == owner && old(rows)[k].revokedAt.None?
                           then old(rows)[k].(revokedAt := Some(at)) else old(rows)[k]
    {
      rows := RevokeAll(rows, owner, at);
    }

    method DeleteExpiredBefore(now: int) returns (affected: nat)
      modifies `rows
      ensures rows == DeleteExpired(old(rows), now)
      ensures forall k :: k in rows <==> k in old(rows) && old(rows)[k].expiresAt >= now
      ensures forall k :: k in rows ==> rows[k] == old(rows)[k]
      ensures affected == |old(rows)| - |rows|
    {
      DeleteShrinks(rows, now);
      var kept := DeleteExpired(rows, now);
      affected := |rows| - |kept|;
      rows := kept;
    }

    /** The conditional update inside the transaction. */
    method ReplaceIfUnrevoked(id: nat, next: nat, at: int) returns (affected: nat)
      modifies `rows
      ensures affected == if id in old(rows) && old(rows)[id].revokedAt.None? then 1 else 0
      ensures rows == if affected == 1 then old(rows)[id := Replaced(old(rows)[id], next, at)] else old(rows)
    {
      affected := 0;
      if id in rows && rows[id].revokedAt.None? {
        rows := rows[id := Replaced(rows[id], next, at)];
        affected := 1;
      }
    }
  }

  lemma DeleteShrinks(rows: map<nat, Row>, now: int)
    ensures |DeleteExpired(rows, now)| <= |rows|
  {
    var kept := DeleteExpired(rows, now);
    assert kept.Keys <= rows.Keys;
    KeysShrink(kept.Keys, rows.Keys);
    assert |kept| == |kept.Keys| && |rows| == |rows.Keys|;
  }

  lemma KeysShrink(a: set<nat>, b: set<nat>)
    requires a <= b
    ensures |a| <= |b|
  {
    assert b == a + (b - a);
  }

  class RefreshTokenService {
    const repo: RefreshTokenRepository
    const ttl: nat

    constructor (repo: RefreshTokenRepository, ttl: nat)
      ensures this.repo == repo && this.ttl == ttl
    {
      this.repo := repo;
      this.ttl := ttl;
    }

    /** None when the generated token is already in use. */
    method Issue(owner: Owner, minted: string, now: int) returns (expiresAt: Option<int>)
      requires Sound(repo.State())
      modifies repo
      ensures Sound(repo.State())
      ensures repo.State() == Insert(old(repo.State()), NewRow(Digest(minted), owner, Expiry(ttl, now)))
      ensures expiresAt.Some? ==>
                && expiresAt.value == now + 1000 * ttl && old(repo.nextId) in repo.rows
                && repo.rows[old(repo.nextId)] == Row(Digest(minted), owner, now + 1000 * ttl, None, None, None)
      ensures expiresAt == if Taken(old(repo.rows), Digest(minted)) then None else Some(Expiry(ttl, now))
    {
      var saved := repo.Save(NewRow(Digest(minted), owner, Expiry(ttl, now)));
      return if saved.None? then None else Some(Expiry(ttl, now));
    }

    method Rotate(token: string, minted: string, now: int) returns (outcome: Outcome)
      requires Sound(repo.State())
      modifies repo
      ensures Sound(repo.State())
      ensures (repo.State(), outcome) == RotateStep(ttl, old(repo.State()), token, minted, now)
    {
      if token == "" {
        return Invalid;
      }
      var found := repo.FindByToken(token);
      if found.None? {
        return Invalid;
      }
      var row := repo.rows[found.value];
      if row.revokedAt.Some? && row.replacedBy.Some? {
        repo.RevokeAllForUser(row.owner, now);
        return Invalid;
      }
      if row.revokedAt.Some? || row.expiresAt <= now {
        return Invalid;
      }
      var done := InTransaction(found.value, NewRow(Digest(minted), row.owner, Expiry(ttl, now)), now);
      return if done then Rotated(row.owner, Expiry(ttl, now)) else Invalid;
    }

    /** Insert and conditional revoke, rolled back together; a rollback keeps the sequence's id. */
    method InTransaction(used: nat, row: Row, now: int) returns (done: bool)
      requires Sound(repo.State()) && used < repo.nextId
      modifies repo
      ensures Sound(repo.State())
      ensures (repo.State(), done) == Exchange(old(repo.State()), used, row, now)
    {
      var before := repo.rows;
      var saved := repo.Save(row);
      if saved.None? {
        return false;
      }
      var affected := repo.ReplaceIfUnrevoked(used, saved.value, now);
      if affected != 1 {
        repo.rows := before;
        return false;
      }
      return true;
    }

    method Revoke(token: string, now: int)
      requires Sound(repo.State())
      modifies repo
      ensures Sound(repo.State())
      ensures repo.State() == LogoutStep(old(repo.State()), token, now)
    {
      var found := repo.FindByToken(token);
      if found.None? || repo.rows[found.value].revokedAt.Some? {
        return;
      }
      repo.Revoke(found.value, now);
    }

    method RevokeAllForUser(owner: Owner, now: int)
      requires Sound(repo.State())
      modifies repo
      ensures Sound(repo.State())
      ensures repo.State() == Table(RevokeAll(old(repo.rows), owner, now), old(repo.nextId))
    {
      repo.RevokeAllForUser(owner, now);
    }

    method PruneExpiredTokens(now: int)
      requires Sound(repo.State())
      modifies repo
      ensures Sound(repo.State())
      ensures repo.State() == Table(DeleteExpired(old(repo.rows), now), old(repo.nextId))
    {
      var _ := repo.DeleteExpiredBefore(now);
    }
  }
}
