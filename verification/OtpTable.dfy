/** The one-time-password table and the statements the repository runs against it. */
module OtpTable {
  import opened Options

  datatype Purpose = UserLogin

  /** Every statement is scoped to one phone and purpose. */
  datatype Key = Key(phone: string, purpose: Purpose)

  /** SHA-256 of a code, taken to be injective. */
  datatype Digest = Digest(code: string)

  datatype Row = Row(id: nat, key: Key, codeHash: Digest, expiresAt: int, attempts: nat, consumedAt: Option<int>, createdAt: int)

  /** Rows in the order of their generated ids; times are milliseconds on one clock. */
  datatype Table = Table(rows: seq<Row>, nextId: nat)

  const EMPTY := Table([], 1)

  // ---------- Queries ----------

  /** findLatestByPhoneAndPurpose: the row with the greatest id. */
  function Latest(rows: seq<Row>, key: Key): (r: Option<Row>)
    ensures r.Some? ==> r.value in rows && r.value.key == key
  {
    if rows == [] then None
    else if rows[|rows| - 1].key == key then Some(rows[|rows| - 1])
    else Latest(rows[..|rows| - 1], key)
  }

  predicate IsActive(r: Row, key: Key, now: int) {
    r.key == key && r.consumedAt.None? && r.expiresAt > now
  }

  /** findActiveByPhoneAndPurpose: the newest row that is unconsumed and unexpired. */
  function Active(rows: seq<Row>, key: Key, now: int): (r: Option<Row>)
    ensures r.Some? ==> r.value in rows && IsActive(r.value, key, now)
  {
    if rows == [] then None
    else if IsActive(rows[|rows| - 1], key, now) then Some(rows[|rows| - 1])
    else Active(rows[..|rows| - 1], key, now)
  }

  /** countRequestsSince: rows created strictly after `since`. */
  function CountSince(rows: seq<Row>, key: Key, since: int): nat {
    if rows == [] then 0
    else
      var r := rows[|rows| - 1];
      CountSince(rows[..|rows| - 1], key, since) + if r.key == key && r.createdAt > since then 1 else 0
  }

  /** sumFailedAttemptsSince: attempts over rows created at or after `since`. */
  function SumSince(rows: seq<Row>, key: Key, since: int): nat {
    if rows == [] then 0
    else
      var r := rows[|rows| - 1];
      SumSince(rows[..|rows| - 1], key, since) + if r.key == key && r.createdAt >= since then r.attempts else 0
  }

  // ---------- Updates ----------

  function Invalidated(r: Row, key: Key, at: int): Row {
    if r.key == key && r.consumedAt.None? then r.(consumedAt := Some(at)) else r
  }

  function InvalidateActive(rows: seq<Row>, key: Key, at: int): (out: seq<Row>)
    ensures |out| == |rows|
    ensures forall i :: 0 <= i < |rows| ==> out[i] == Invalidated(rows[i], key, at)
  {
    seq(|rows|, i requires 0 <= i < |rows| => Invalidated(rows[i], key, at))
  }

  function MarkConsumed(rows: seq<Row>, id: nat, at: int): (out: seq<Row>)
    ensures |out| == |rows|
    ensures forall i :: 0 <= i < |rows| ==> out[i] == if rows[i].id == id then rows[i].(consumedAt := Some(at)) else rows[i]
  {
    seq(|rows|, i requires 0 <= i < |rows| => if rows[i].id == id then rows[i].(consumedAt := Some(at)) else rows[i])
  }

  function IncrementAttempts(rows: seq<Row>, id: nat): (out: seq<Row>)
    ensures |out| == |rows|
    ensures forall i :: 0 <= i < |rows| ==> out[i] == if rows[i].id == id then rows[i].(attempts := rows[i].attempts + 1) else rows[i]
  {
    seq(|rows|, i requires 0 <= i < |rows| => if rows[i].id == id then rows[i].(attempts := rows[i].attempts + 1) else rows[i])
  }

  /** deleteCreatedBefore: rows created strictly before the cutoff go. */
  function DeleteBefore(rows: seq<Row>, cutoff: int): (out: seq<Row>)
    ensures forall r :: r in out <==> r in rows && r.createdAt >= cutoff
  {
    if rows == [] then []
    else if rows[0].createdAt < cutoff then DeleteBefore(rows[1..], cutoff)
    else [rows[0]] + DeleteBefore(rows[1..], cutoff)
  }

  // ---------- What the counts depend on ----------

  /** Row by row, the same key, creation time and attempts. */
  ghost predicate SameCounts(a: seq<Row>, b: seq<Row>) {
    |a| == |b| && forall i :: 0 <= i < |a| ==> a[i].key == b[i].key && a[i].createdAt == b[i].createdAt && a[i].attempts == b[i].attempts
  }

  lemma {:induction false} CountsAgree(a: seq<Row>, b: seq<Row>, key: Key, since: int)
    requires SameCounts(a, b)
    ensures SumSince(a, key, since) == SumSince(b, key, since)
    ensures CountSince(a, key, since) == CountSince(b, key, since)
  {
    if a != [] {
      CountsAgree(a[..|a| - 1], b[..|b| - 1], key, since);
    }
  }

  lemma CountsAppend(rows: seq<Row>, r: Row, key: Key, since: int)
    ensures SumSince(rows + [r], key, since)
         == SumSince(rows, key, since) + if r.key == key && r.createdAt >= since then r.attempts else 0
    ensures CountSince(rows + [r], key, since)
         == CountSince(rows, key, since) + if r.key == key && r.createdAt > since then 1 else 0
  {
    assert (rows + [r])[..|rows|] == rows;
  }

  /** One more attempt on row `i` adds one to every sum whose window holds the row. */
  lemma {:induction false} SumIncrement(rows: seq<Row>, i: nat, key: Key, since: int)
    requires i < |rows|
    ensures SumSince(rows[i := rows[i].(attempts := rows[i].attempts + 1)], key, since)
         == SumSince(rows, key, since) + if rows[i].key == key && rows[i].createdAt >= since then 1 else 0
  {
    var n := |rows| - 1;
    var out := rows[i := rows[i].(attempts := rows[i].attempts + 1)];
    if i == n {
      assert out[..n] == rows[..n];
    } else {
      assert out[..n] == rows[..n][i := rows[..n][i].(attempts := rows[..n][i].attempts + 1)];
      SumIncrement(rows[..n], i, key, since);
    }
  }

  lemma {:induction false} CountIncrement(rows: seq<Row>, i: nat, key: Key, since: int)
    requires i < |rows|
    ensures CountSince(rows[i := rows[i].(attempts := rows[i].attempts + 1)], key, since) == CountSince(rows, key, since)
  {
    var n := |rows| - 1;
    var out := rows[i := rows[i].(attempts := rows[i].attempts + 1)];
    if i == n {
      assert out[..n] == rows[..n];
    } else {
      assert out[..n] == rows[..n][i := rows[..n][i].(attempts := rows[..n][i].attempts + 1)];
      CountIncrement(rows[..n], i, key, since);
    }
  }

  /** Rows too old for the window do not count, wherever the window starts. */
  lemma {:induction false} CountsSkipOld(rows: seq<Row>, m: nat, key: Key, since: int)
    requires m <= |rows|
    requires forall i :: 0 <= i < m ==> rows[i].createdAt < since
    ensures SumSince(rows[m..], key, since) == SumSince(rows, key, since)
    ensures CountSince(rows[m..], key, since) == CountSince(rows, key, since)
  {
    var n := |rows| - 1;
    if m < |rows| {
      assert rows[m..][..|rows[m..]| - 1] == rows[..n][m..];
      CountsSkipOld(rows[..n], m, key, since);
    } else if rows != [] {
      assert rows[m..] == [] && rows[..n][n..] == [];
      CountsSkipOld(rows[..n], n, key, since);
    }
  }

  // ---------- Order ----------

  /** Ids and creation times rise along the table. */
  ghost predicate Ordered(t: Table, now: int) {
    && (forall i :: 0 <= i < |t.rows| ==> t.rows[i].id < t.nextId && t.rows[i].createdAt <= now)
    && (forall i, j :: 0 <= i < j < |t.rows| ==> t.rows[i].id < t.rows[j].id && t.rows[i].createdAt <= t.rows[j].createdAt)
  }

  lemma {:induction false} DeleteKeepsAll(rows: seq<Row>, cutoff: int)
    requires forall i :: 0 <= i < |rows| ==> rows[i].createdAt >= cutoff
    ensures DeleteBefore(rows, cutoff) == rows
  {
    if rows != [] {
      DeleteKeepsAll(rows[1..], cutoff);
      assert rows == [rows[0]] + rows[1..];
    }
  }

  /** In an ordered table, deletion by age drops a prefix. */
  lemma {:induction false} DeleteDropsPrefix(rows: seq<Row>, cutoff: int) returns (m: nat)
    requires forall i, j :: 0 <= i < j < |rows| ==> rows[i].createdAt <= rows[j].createdAt
    ensures m <= |rows| && DeleteBefore(rows, cutoff) == rows[m..]
    ensures forall i :: 0 <= i < m ==> rows[i].createdAt < cutoff
    ensures forall i :: m <= i < |rows| ==> rows[i].createdAt >= cutoff
  {
    if rows == [] {
      m := 0;
    } else if rows[0].createdAt < cutoff {
      m := DeleteDropsPrefix(rows[1..], cutoff);
      m := m + 1;
    } else {
      DeleteKeepsAll(rows, cutoff);
      m := 0;
    }
  }

  /** In an ordered table, an update by id touches one row. */
  lemma IncrementIsPoint(t: Table, now: int, i: nat)
    requires Ordered(t, now) && i < |t.rows|
    ensures IncrementAttempts(t.rows, t.rows[i].id) == t.rows[i := t.rows[i].(attempts := t.rows[i].attempts + 1)]
  {
    assert forall j :: 0 <= j < |t.rows| && j != i ==> t.rows[j].id != t.rows[i].id;
  }

  lemma {:induction false} ActiveIndex(rows: seq<Row>, key: Key, now: int) returns (i: nat)
    requires Active(rows, key, now).Some?
    ensures i < |rows| && rows[i] == Active(rows, key, now).value
    ensures forall j :: i < j < |rows| ==> !IsActive(rows[j], key, now)
  {
    if IsActive(rows[|rows| - 1], key, now) {
      i := |rows| - 1;
    } else {
      i := ActiveIndex(rows[..|rows| - 1], key, now);
    }
  }

  lemma {:induction false} NoneActive(rows: seq<Row>, key: Key, now: int)
    ensures Active(rows, key, now).None? <==> forall i :: 0 <= i < |rows| ==> !IsActive(rows[i], key, now)
  {
    if rows != [] {
      var n := |rows| - 1;
      NoneActive(rows[..n], key, now);
      if Active(rows, key, now).None? {
        forall i | 0 <= i < |rows| ensures !IsActive(rows[i], key, now) {
          if i < n {
            assert rows[..n][i] == rows[i];
          }
        }
      } else if IsActive(rows[n], key, now) {
      } else {
        var i :| 0 <= i < n && IsActive(rows[..n][i], key, now);
        assert IsActive(rows[i], key, now);
      }
    }
  }

  lemma {:induction false} LatestIndex(rows: seq<Row>, key: Key) returns (i: nat)
    requires Latest(rows, key).Some?
    ensures i < |rows| && rows[i] == Latest(rows, key).value
    ensures forall j :: i < j < |rows| ==> rows[j].key != key
  {
    if rows[|rows| - 1].key == key {
      i := |rows| - 1;
    } else {
      i := LatestIndex(rows[..|rows| - 1], key);
    }
  }

  lemma {:induction false} NoneOfKey(rows: seq<Row>, key: Key)
    ensures Latest(rows, key).None? <==> forall i :: 0 <= i < |rows| ==> rows[i].key != key
  {
    if rows != [] {
      var n := |rows| - 1;
      NoneOfKey(rows[..n], key);
      assert rows == rows[..n] + [rows[n]];
      assert forall i :: 0 <= i < n ==> rows[..n][i] == rows[i];
    }
  }
}
