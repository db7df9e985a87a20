/**
 * What the history of a run of one-time-password calls records beyond `OtpRuns`: failures
 * happen on the newest code under the lock check of their instant, and a code is reissued
 * only after its cooldown, its pruning, or its consumption at an unlocked instant.
 */
module OtpHistory {
  import opened Options
  import opened OtpTable
  import opened OtpService
  import opened OtpRuns

  /** Failures and rows are of issued codes. */
  ghost predicate Linked(rows: seq<Row>, issues: seq<IssueEvent>, fails: seq<FailEvent>) {
    && (forall f :: f in fails ==> IssueEvent(f.key, f.created, f.id) in issues)
    && (forall i :: 0 <= i < |rows| ==> IssueEvent(rows[i].key, rows[i].createdAt, rows[i].id) in issues)
  }

  ghost predicate IssuesOrdered(issues: seq<IssueEvent>, nextId: nat) {
    && (forall i, j :: 0 <= i < j < |issues| ==> issues[i].id < issues[j].id && issues[i].at <= issues[j].at)
    && (forall i :: 0 <= i < |issues| ==> issues[i].id < nextId)
  }

  /** A failure is on the code issued last: later codes of its key are issued no earlier. */
  ghost predicate FailsOrdered(issues: seq<IssueEvent>, fails: seq<FailEvent>) {
    && (forall f, e :: f in fails && e in issues && e.key == f.key && e.id > f.id ==> f.at <= e.at)
    && (forall f :: f in fails ==> f.created <= f.at)
    && (forall i, j :: 0 <= i < j < |fails| ==> fails[i].at <= fails[j].at)
    && (forall i, j :: 0 <= i < j < |fails| && fails[i].key == fails[j].key ==> fails[i].id <= fails[j].id)
  }

  /** Every failure passed the lock check against the failures before it. */
  ghost predicate LockChecked(c: Config, fails: seq<FailEvent>) {
    forall j :: 0 <= j < |fails| ==> PassedLock(c, fails[..j], fails[j].key, fails[j].at)
  }

  ghost predicate PassedLock(c: Config, fails: seq<FailEvent>, key: Key, at: int) {
    FailsOnRowsSince(fails, key, at - Ms(c.lockWindow)) < c.maxFailures
  }

  /** The newest code of a key is consumed only by a call, while it is alive, when unlocked. */
  ghost predicate NewestConsumed(c: Config, rows: seq<Row>, issues: seq<IssueEvent>, fails: seq<FailEvent>, now: int) {
    forall i :: 0 <= i < |rows| && rows[i].consumedAt.Some? && LastIssue(issues, rows[i].key) == Some(rows[i].id) ==>
      && rows[i].createdAt <= rows[i].consumedAt.value <= now && rows[i].consumedAt.value < rows[i].expiresAt
      && PassedLock(c, fails, rows[i].key, rows[i].consumedAt.value)
  }

  ghost predicate HasRow(rows: seq<Row>, id: nat) {
    exists i :: 0 <= i < |rows| && rows[i].id == id
  }

  /** Only pruning removes the row of a code. */
  ghost predicate Kept(c: Config, rows: seq<Row>, issues: seq<IssueEvent>, now: int) {
    forall e :: e in issues ==> HasRow(rows, e.id) || e.at < Cutoff(c, now)
  }

  /** Failures on rows created at or after `since`, up to the row `id`. */
  function FailsUpTo(fails: seq<FailEvent>, key: Key, since: int, id: nat): nat {
    if fails == [] then 0
    else
      var f := fails[|fails| - 1];
      FailsUpTo(fails[..|fails| - 1], key, since, id) + if f.key == key && f.created >= since && f.id <= id then 1 else 0
  }

  ghost predicate ConsumableAt(c: Config, fails: seq<FailEvent>, p: IssueEvent, u: int) {
    p.at <= u < p.at + Ms(c.ttl) && FailsUpTo(fails, p.key, u - Ms(c.lockWindow), p.id) < c.maxFailures
  }

  /** Why the code after `p` could be issued at `at`. */
  ghost predicate Relief(c: Config, fails: seq<FailEvent>, p: IssueEvent, at: int) {
    || at - p.at >= Ms(c.cooldown)
    || at > p.at + Ms(Retention(c))
    || exists u :: u <= at && ConsumableAt(c, fails, p, u)
  }

  ghost predicate Successive(issues: seq<IssueEvent>, i: int, j: int) {
    && 0 <= i < j < |issues| && issues[i].key == issues[j].key
    && forall k :: i < k < j ==> issues[k].key != issues[i].key
  }

  ghost predicate Relieved(c: Config, issues: seq<IssueEvent>, fails: seq<FailEvent>) {
    forall i, j :: Successive(issues, i, j) ==> Relief(c, fails, issues[i], issues[j].at)
  }

  ghost predicate History(c: Config, w: World) {
    && Invariant(c, w)
    && Linked(w.table.rows, w.issues, w.fails)
    && IssuesOrdered(w.issues, w.table.nextId)
    && FailsOrdered(w.issues, w.fails)
    && LockChecked(c, w.fails)
    && NewestConsumed(c, w.table.rows, w.issues, w.fails, w.now)
    && Kept(c, w.table.rows, w.issues, w.now)
    && Relieved(c, w.issues, w.fails)
  }

  // ---------- Events ----------

  /** Only rows newly consumed, and those at `now`, alive and unlocked, on the newest code. */
  ghost predicate Consumes(c: Config, w: World, rows: seq<Row>) {
    && |rows| == |w.table.rows|
    && forall i :: 0 <= i < |rows| ==>
         || rows[i] == w.table.rows[i]
         || (rows[i] == w.table.rows[i].(consumedAt := Some(w.now)) && w.table.rows[i].expiresAt > w.now
             && !IsLocked(c, w.table, rows[i].key, w.now))
  }

  lemma LastIssueIn(issues: seq<IssueEvent>, key: Key, nextId: nat, e: IssueEvent)
    requires IssuesOrdered(issues, nextId) && e in issues && e.key == key
    ensures LastIssue(issues, key).Some? && e.id <= LastIssue(issues, key).value
    decreases |issues|
  {
    var n := |issues| - 1;
    if issues[n] != e {
      assert e in issues[..n];
      LastIssueIn(issues[..n], key, nextId, e);
      if issues[n].key == key {
        assert e.id < issues[n].id;
      }
    }
  }

  lemma UnlockedPasses(c: Config, w: World, key: Key)
    requires Invariant(c, w) && !IsLocked(c, w.table, key, w.now)
    ensures PassedLock(c, w.fails, key, w.now)
  {
    assert w.now - Ms(c.lockWindow) >= Cutoff(c, w.now);
  }

  lemma ConsumeKeepsConsumed(c: Config, w: World, rows: seq<Row>)
    requires Invariant(c, w) && NewestConsumed(c, w.table.rows, w.issues, w.fails, w.now) && Consumes(c, w, rows)
    ensures NewestConsumed(c, rows, w.issues, w.fails, w.now)
  {
    forall i | 0 <= i < |rows| && rows[i] != w.table.rows[i]
      ensures PassedLock(c, w.fails, rows[i].key, w.now)
    {
      UnlockedPasses(c, w, rows[i].key);
    }
  }

  lemma ConsumeKeepsKept(c: Config, w: World, rows: seq<Row>)
    requires Kept(c, w.table.rows, w.issues, w.now) && Consumes(c, w, rows)
    ensures Kept(c, rows, w.issues, w.now)
  {
    forall e | e in w.issues && HasRow(w.table.rows, e.id)
      ensures HasRow(rows, e.id)
    {
      var i :| 0 <= i < |w.table.rows| && w.table.rows[i].id == e.id;
      assert rows[i].id == e.id;
    }
  }

  lemma ConsumeKeepsHistory(c: Config, w: World, v: World)
    requires History(c, w) && Invariant(c, v) && v.issues == w.issues && v.fails == w.fails && v.now == w.now
    requires Consumes(c, w, v.table.rows) && v.table.nextId == w.table.nextId
    ensures History(c, v)
  {
    ConsumeKeepsConsumed(c, w, v.table.rows);
    ConsumeKeepsKept(c, w, v.table.rows);
  }

  // ---------- A failure ----------

  /** The row is of the code issued last for its key. */
  ghost predicate IsNewest(issues: seq<IssueEvent>, nextId: nat, r: Row) {
    && IssuesOrdered(issues, nextId) && LastIssue(issues, r.key) == Some(r.id)
    && IssueEvent(r.key, r.createdAt, r.id) in issues
  }

  lemma FailKeepsOrder(issues: seq<IssueEvent>, fails: seq<FailEvent>, nextId: nat, r: Row, now: int)
    requires IsNewest(issues, nextId, r) && FailsOrdered(issues, fails) && r.createdAt <= now
    requires forall f :: f in fails ==> f.at <= now && IssueEvent(f.key, f.created, f.id) in issues
    ensures FailsOrdered(issues, fails + [FailOn(r, now)])
  {
    forall e | e in issues && e.key == r.key
      ensures e.id <= r.id
    {
      LastIssueIn(issues, r.key, nextId, e);
    }
    forall f | f in fails && f.key == r.key
      ensures f.id <= r.id && f.at <= now
    {
      assert IssueEvent(f.key, f.created, f.id) in issues;
    }
  }

  lemma FailKeepsLinked(rows: seq<Row>, i: nat, issues: seq<IssueEvent>, fails: seq<FailEvent>, now: int)
    requires Linked(rows, issues, fails) && i < |rows|
    ensures Linked(RowsAfterFail(rows, i), issues, fails + [FailOn(rows[i], now)])
  {
  }

  lemma FailKeepsLockChecked(c: Config, w: World, r: Row)
    requires Invariant(c, w) && LockChecked(c, w.fails) && !IsLocked(c, w.table, r.key, w.now)
    ensures LockChecked(c, w.fails + [FailOn(r, w.now)])
  {
    var out := w.fails + [FailOn(r, w.now)];
    UnlockedPasses(c, w, r.key);
    forall j | 0 <= j < |out|
      ensures PassedLock(c, out[..j], out[j].key, out[j].at)
    {
      if j < |w.fails| {
        assert out[..j] == w.fails[..j];
        assert PassedLock(c, w.fails[..j], w.fails[j].key, w.fails[j].at);
      } else {
        assert out[..j] == w.fails;
      }
    }
  }

  /** No other row of the key is its newest code, and this one is unconsumed. */
  lemma FailKeepsConsumed(c: Config, t: Table, issues: seq<IssueEvent>, fails: seq<FailEvent>, i: nat, now: int)
    requires Ordered(t, now) && NewestConsumed(c, t.rows, issues, fails, now)
    requires i < |t.rows| && t.rows[i].consumedAt.None? && LastIssue(issues, t.rows[i].key) == Some(t.rows[i].id)
    ensures NewestConsumed(c, RowsAfterFail(t.rows, i), issues, fails + [FailOn(t.rows[i], now)], now)
  {
    var r := t.rows[i];
    forall k | 0 <= k < |t.rows| && k != i && LastIssue(issues, t.rows[k].key) == Some(t.rows[k].id) && t.rows[k].consumedAt.Some?
      ensures PassedLock(c, fails + [FailOn(r, now)], t.rows[k].key, t.rows[k].consumedAt.value)
    {
      assert t.rows[k].id != r.id;
      OtherKeyPasses(c, fails, FailOn(r, now), t.rows[k].key, t.rows[k].consumedAt.value);
    }
  }

  lemma OtherKeyPasses(c: Config, fails: seq<FailEvent>, f: FailEvent, key: Key, at: int)
    requires PassedLock(c, fails, key, at) && f.key != key
    ensures PassedLock(c, fails + [f], key, at)
  {
    FailsAppend(fails, f);
  }

  lemma FailKeepsKept(c: Config, w: World, i: nat)
    requires Kept(c, w.table.rows, w.issues, w.now) && i < |w.table.rows|
    ensures Kept(c, RowsAfterFail(w.table.rows, i), w.issues, w.now)
  {
    forall e | e in w.issues && HasRow(w.table.rows, e.id)
      ensures HasRow(RowsAfterFail(w.table.rows, i), e.id)
    {
      var k :| 0 <= k < |w.table.rows| && w.table.rows[k].id == e.id;
      assert RowsAfterFail(w.table.rows, i)[k].id == e.id;
    }
  }

  lemma UpToAppend(fails: seq<FailEvent>, f: FailEvent, key: Key, since: int, id: nat)
    ensures FailsUpTo(fails + [f], key, since, id)
         == FailsUpTo(fails, key, since, id) + if f.key == key && f.created >= since && f.id <= id then 1 else 0
  {
    assert (fails + [f])[..|fails|] == fails;
  }

  /** A failure on a newer code does not count up to an older one. */
  lemma FailKeepsRelief(c: Config, fails: seq<FailEvent>, f: FailEvent, p: IssueEvent, at: int)
    requires Relief(c, fails, p, at) && (f.key == p.key ==> f.id > p.id)
    ensures Relief(c, fails + [f], p, at)
  {
    if u :| u <= at && ConsumableAt(c, fails, p, u) {
      UpToAppend(fails, f, p.key, u - Ms(c.lockWindow), p.id);
      assert ConsumableAt(c, fails + [f], p, u);
    }
  }

  lemma FailKeepsRelieved(c: Config, w: World, r: Row)
    requires IssuesOrdered(w.issues, w.table.nextId) && Relieved(c, w.issues, w.fails) && LastIssue(w.issues, r.key) == Some(r.id)
    ensures Relieved(c, w.issues, w.fails + [FailOn(r, w.now)])
  {
    forall i, j | Successive(w.issues, i, j)
      ensures Relief(c, w.fails + [FailOn(r, w.now)], w.issues[i], w.issues[j].at)
    {
      if r.key == w.issues[i].key {
        LastIssueIn(w.issues, r.key, w.table.nextId, w.issues[j]);
      }
      FailKeepsRelief(c, w.fails, FailOn(r, w.now), w.issues[i], w.issues[j].at);
    }
  }

  lemma FailKeepsHistory(c: Config, w: World, i: nat, v: World)
    requires History(c, w) && i < |w.table.rows| && w.table.rows[i].consumedAt.None?
    requires !IsLocked(c, w.table, w.table.rows[i].key, w.now)
    requires v == World(Table(RowsAfterFail(w.table.rows, i), w.table.nextId), w.now, w.issues, w.fails + [FailOn(w.table.rows[i], w.now)], w.wins)
    requires Invariant(c, v)
    ensures History(c, v)
  {
    FailKeepsOrder(w.issues, w.fails, w.table.nextId, w.table.rows[i], w.now);
    FailKeepsLinked(w.table.rows, i, w.issues, w.fails, w.now);
    FailKeepsLockChecked(c, w, w.table.rows[i]);
    FailKeepsConsumed(c, w.table, w.issues, w.fails, i, w.now);
    FailKeepsKept(c, w, i);
    FailKeepsRelieved(c, w, w.table.rows[i]);
  }

  // ---------- An issue ----------

  lemma IssueKeepsLinked(c: Config, t: Table, issues: seq<IssueEvent>, fails: seq<FailEvent>, key: Key, generated: string, now: int)
    requires Linked(t.rows, issues, fails) && IssuesOrdered(issues, t.nextId) && IssuesTimed(issues, now)
    ensures Linked(RowsAfterIssue(c, t, key, generated, now), issues + [IssueEvent(key, now, t.nextId)], fails)
    ensures IssuesOrdered(issues + [IssueEvent(key, now, t.nextId)], t.nextId + 1)
  {
    var out := RowsAfterIssue(c, t, key, generated, now);
    assert forall i :: 0 <= i < |t.rows| ==> out[i] == Invalidated(t.rows[i], key, now);
  }

  lemma IssueKeepsOrder(issues: seq<IssueEvent>, fails: seq<FailEvent>, key: Key, nextId: nat, now: int)
    requires FailsOrdered(issues, fails) && forall f :: f in fails ==> f.at <= now
    ensures FailsOrdered(issues + [IssueEvent(key, now, nextId)], fails)
  {
  }

  /** The new code is the newest of its key, and unconsumed; other keys are untouched. */
  lemma IssueKeepsConsumed(c: Config, t: Table, issues: seq<IssueEvent>, fails: seq<FailEvent>, key: Key, generated: string, now: int)
    requires NewestConsumed(c, t.rows, issues, fails, now) && Ordered(t, now)
    ensures NewestConsumed(c, RowsAfterIssue(c, t, key, generated, now), issues + [IssueEvent(key, now, t.nextId)], fails, now)
  {
    var out := RowsAfterIssue(c, t, key, generated, now);
    assert forall i :: 0 <= i < |t.rows| ==> out[i] == Invalidated(t.rows[i], key, now);
    IssuesAppend(issues, IssueEvent(key, now, t.nextId));
  }

  lemma IssueKeepsKept(c: Config, t: Table, issues: seq<IssueEvent>, key: Key, generated: string, now: int)
    requires Kept(c, t.rows, issues, now)
    ensures Kept(c, RowsAfterIssue(c, t, key, generated, now), issues + [IssueEvent(key, now, t.nextId)], now)
  {
    var out := RowsAfterIssue(c, t, key, generated, now);
    assert out[|t.rows|].id == t.nextId;
    forall e | e in issues && HasRow(t.rows, e.id)
      ensures HasRow(out, e.id)
    {
      var i :| 0 <= i < |t.rows| && t.rows[i].id == e.id;
      assert out[i] == Invalidated(t.rows[i], key, now);
    }
  }

  lemma {:induction false} UpToAtMost(fails: seq<FailEvent>, key: Key, since: int, id: nat)
    ensures FailsUpTo(fails, key, since, id) <= FailsOnRowsSince(fails, key, since)
  {
    if fails != [] {
      UpToAtMost(fails[..|fails| - 1], key, since, id);
    }
  }

  /** A row of the table of the newest code of its key is the latest row of that key. */
  lemma NewestIsLatest(t: Table, now: int, issues: seq<IssueEvent>, fails: seq<FailEvent>, i: nat)
    requires Ordered(t, now) && Linked(t.rows, issues, fails) && IssuesOrdered(issues, t.nextId)
    requires i < |t.rows| && LastIssue(issues, t.rows[i].key) == Some(t.rows[i].id)
    ensures Latest(t.rows, t.rows[i].key) == Some(t.rows[i])
  {
    forall k | i < k < |t.rows|
      ensures t.rows[k].key != t.rows[i].key
    {
      if t.rows[k].key == t.rows[i].key {
        LastIssueIn(issues, t.rows[i].key, t.nextId, IssueEvent(t.rows[k].key, t.rows[k].createdAt, t.rows[k].id));
      }
    }
    LatestAt(t.rows, i);
  }

  lemma {:induction false} LatestAt(rows: seq<Row>, i: nat)
    requires i < |rows| && forall k :: i < k < |rows| ==> rows[k].key != rows[i].key
    ensures Latest(rows, rows[i].key) == Some(rows[i])
  {
    if i < |rows| - 1 {
      LatestAt(rows[..|rows| - 1], i);
    }
  }

  /** The cooldown check, when the newest code's row is still there. */
  lemma ConsumedOrCool(c: Config, t: Table, fails: seq<FailEvent>, r: Row, now: int)
    requires Latest(t.rows, r.key) == Some(r) && CooldownLeft(c, t, r.key, now).None?
    requires r.expiresAt == r.createdAt + Ms(c.ttl)
    requires r.consumedAt.Some? ==> r.createdAt <= r.consumedAt.value <= now && r.consumedAt.value < r.expiresAt
                                    && PassedLock(c, fails, r.key, r.consumedAt.value)
    ensures Relief(c, fails, IssueEvent(r.key, r.createdAt, r.id), now)
  {
    if r.consumedAt.Some? {
      var u := r.consumedAt.value;
      UpToAtMost(fails, r.key, u - Ms(c.lockWindow), r.id);
      assert ConsumableAt(c, fails, IssueEvent(r.key, r.createdAt, r.id), u);
    }
  }

  /** What allowed the issue after the newest code `p` of the key. */
  lemma IssueIsRelieved(c: Config, w: World, key: Key, p: IssueEvent)
    requires RowsSound(c, w.table, w.now) && Linked(w.table.rows, w.issues, w.fails) && IssuesOrdered(w.issues, w.table.nextId)
    requires NewestConsumed(c, w.table.rows, w.issues, w.fails, w.now) && Kept(c, w.table.rows, w.issues, w.now)
    requires p in w.issues && p.key == key && LastIssue(w.issues, key) == Some(p.id)
    requires CooldownLeft(c, w.table, key, w.now).None?
    ensures Relief(c, w.fails, p, w.now)
  {
    if HasRow(w.table.rows, p.id) {
      var i :| 0 <= i < |w.table.rows| && w.table.rows[i].id == p.id;
      RowOfIssue(w.table.rows, w.issues, w.fails, w.table.nextId, i, p);
      NewestIsLatest(w.table, w.now, w.issues, w.fails, i);
      ConsumedOrCool(c, w.table, w.fails, w.table.rows[i], w.now);
    }
  }

  lemma RowOfIssue(rows: seq<Row>, issues: seq<IssueEvent>, fails: seq<FailEvent>, nextId: nat, i: nat, p: IssueEvent)
    requires Linked(rows, issues, fails) && IssuesOrdered(issues, nextId)
    requires i < |rows| && p in issues && rows[i].id == p.id
    ensures rows[i].key == p.key && rows[i].createdAt == p.at
  {
    var e := IssueEvent(rows[i].key, rows[i].createdAt, rows[i].id);
    SameIssue(issues, nextId, e, p);
  }

  lemma SameIssue(issues: seq<IssueEvent>, nextId: nat, e: IssueEvent, p: IssueEvent)
    requires IssuesOrdered(issues, nextId) && e in issues && p in issues && e.id == p.id
    ensures e == p
  {
    var i :| 0 <= i < |issues| && issues[i] == e;
    var j :| 0 <= j < |issues| && issues[j] == p;
    assert i == j;
  }

  lemma {:induction false} LastOf(issues: seq<IssueEvent>, i: int)
    requires 0 <= i < |issues| && forall k :: i < k < |issues| ==> issues[k].key != issues[i].key
    ensures LastIssue(issues, issues[i].key) == Some(issues[i].id)
  {
    if i < |issues| - 1 {
      LastOf(issues[..|issues| - 1], i);
    }
  }

  lemma IssueKeepsRelieved(c: Config, w: World, key: Key)
    requires History(c, w) && CooldownLeft(c, w.table, key, w.now).None?
    ensures Relieved(c, w.issues + [IssueEvent(key, w.now, w.table.nextId)], w.fails)
  {
    var out := w.issues + [IssueEvent(key, w.now, w.table.nextId)];
    forall i, j | Successive(out, i, j)
      ensures Relief(c, w.fails, out[i], out[j].at)
    {
      if j < |w.issues| {
        assert forall k :: i < k < j ==> w.issues[k] == out[k];
        assert Successive(w.issues, i, j);
      } else {
        assert forall k :: i < k < |w.issues| ==> w.issues[k] == out[k];
        LastOf(w.issues, i);
        IssueIsRelieved(c, w, key, w.issues[i]);
      }
    }
  }

  lemma IssueKeepsHistory(c: Config, w: World, key: Key, generated: string, v: World)
    requires History(c, w) && CooldownLeft(c, w.table, key, w.now).None? && Invariant(c, v)
    requires v == World(Table(RowsAfterIssue(c, w.table, key, generated, w.now), w.table.nextId + 1), w.now,
                        w.issues + [IssueEvent(key, w.now, w.table.nextId)], w.fails, w.wins)
    ensures History(c, v)
  {
    IssueKeepsLinked(c, w.table, w.issues, w.fails, key, generated, w.now);
    IssueKeepsOrder(w.issues, w.fails, key, w.table.nextId, w.now);
    IssueKeepsConsumed(c, w.table, w.issues, w.fails, key, generated, w.now);
    IssueKeepsKept(c, w.table, w.issues, key, generated, w.now);
    IssueKeepsRelieved(c, w, key);
  }

  // ---------- Every run ----------

  lemma SuffixKeepsHistory(c: Config, w: World, m: nat, v: World)
    requires History(c, w) && m <= |w.table.rows| && Invariant(c, v)
    requires forall i :: 0 <= i < m ==> w.table.rows[i].createdAt < Cutoff(c, w.now)
    requires v == w.(table := Table(w.table.rows[m..], w.table.nextId))
    ensures History(c, v)
  {
    forall e | e in w.issues
      ensures HasRow(w.table.rows[m..], e.id) || e.at < Cutoff(c, w.now)
    {
      if HasRow(w.table.rows, e.id) {
        var i :| 0 <= i < |w.table.rows| && w.table.rows[i].id == e.id;
        if i < m {
          RowOfIssue(w.table.rows, w.issues, w.fails, w.table.nextId, i, e);
        } else {
          assert w.table.rows[m..][i - m].id == e.id;
        }
      }
    }
  }

  lemma LaterKeepsHistory(c: Config, w: World, at: int)
    requires History(c, w) && w.now <= at
    ensures History(c, w.(now := at))
  {
    Later(c, w, at);
  }

  function Issued(c: Config, w: World, key: Key, generated: string): World {
    World(Table(RowsAfterIssue(c, w.table, key, generated, w.now), w.table.nextId + 1), w.now,
          w.issues + [IssueEvent(key, w.now, w.table.nextId)], w.fails, w.wins)
  }

  lemma IssueShape(c: Config, w: World, key: Key, generated: string)
    ensures var passed := !IsLocked(c, w.table, key, w.now) && !RateExceeded(c, w.table, key, w.now) && CooldownLeft(c, w.table, key, w.now).None?;
            IssueWorld(c, w, key, generated, w.now) == if passed then Issued(c, w, key, generated) else w
  {
  }

  lemma IssueNowKeepsHistory(c: Config, w: World, key: Key, generated: string)
    requires History(c, w)
    ensures History(c, IssueWorld(c, w, key, generated, w.now))
  {
    IssueShape(c, w, key, generated);
    if !IsLocked(c, w.table, key, w.now) && !RateExceeded(c, w.table, key, w.now) && CooldownLeft(c, w.table, key, w.now).None? {
      IssueKeepsInvariant(c, w, key, generated);
      IssueKeepsHistory(c, w, key, generated, Issued(c, w, key, generated));
    }
  }

  function Failed(w: World, i: nat): World
    requires i < |w.table.rows|
  {
    World(Table(RowsAfterFail(w.table.rows, i), w.table.nextId), w.now, w.issues, w.fails + [FailOn(w.table.rows[i], w.now)], w.wins)
  }

  lemma MismatchShape(c: Config, w: World, key: Key, code: string, i: nat)
    requires Ordered(w.table, w.now) && !IsLocked(c, w.table, key, w.now)
    requires i < |w.table.rows| && Active(w.table.rows, key, w.now) == Some(w.table.rows[i])
    requires w.table.rows[i].attempts < c.maxAttempts && Digest(code) != w.table.rows[i].codeHash
    ensures VerifyWorld(c, w, key, code, w.now) == Failed(w, i)
  {
    IncrementIsPoint(w.table, w.now, i);
  }

  /** Every other verification leaves failures and issues alone, and consumes at most its row. */
  lemma OtherShape(c: Config, w: World, key: Key, code: string, i: nat)
    requires Ordered(w.table, w.now) && !IsLocked(c, w.table, key, w.now)
    requires i < |w.table.rows| && Active(w.table.rows, key, w.now) == Some(w.table.rows[i])
    requires !(w.table.rows[i].attempts < c.maxAttempts && Digest(code) != w.table.rows[i].codeHash)
    ensures var v := VerifyWorld(c, w, key, code, w.now);
            v.issues == w.issues && v.fails == w.fails && v.now == w.now && v.table.nextId == w.table.nextId
            && Consumes(c, w, v.table.rows)
  {
    MarkIsPoint(w.table, w.now, i);
  }

  lemma ActiveKeepsHistory(c: Config, w: World, key: Key, code: string, i: nat)
    requires History(c, w) && !IsLocked(c, w.table, key, w.now)
    requires i < |w.table.rows| && Active(w.table.rows, key, w.now) == Some(w.table.rows[i])
    requires Invariant(c, VerifyWorld(c, w, key, code, w.now))
    ensures History(c, VerifyWorld(c, w, key, code, w.now))
  {
    if w.table.rows[i].attempts < c.maxAttempts && Digest(code) != w.table.rows[i].codeHash {
      MismatchShape(c, w, key, code, i);
      FailKeepsHistory(c, w, i, Failed(w, i));
    } else {
      OtherShape(c, w, key, code, i);
      ConsumeKeepsHistory(c, w, VerifyWorld(c, w, key, code, w.now));
    }
  }

  lemma MarkIsPoint(t: Table, now: int, i: nat)
    requires Ordered(t, now) && i < |t.rows|
    ensures MarkConsumed(t.rows, t.rows[i].id, now) == t.rows[i := t.rows[i].(consumedAt := Some(now))]
  {
    assert forall j :: 0 <= j < |t.rows| && j != i ==> t.rows[j].id != t.rows[i].id;
  }

  lemma RefusedShape(c: Config, w: World, key: Key, code: string)
    requires IsLocked(c, w.table, key, w.now) || Active(w.table.rows, key, w.now).None?
    ensures VerifyWorld(c, w, key, code, w.now) == w
  {
  }

  lemma InvariantOfHistory(c: Config, w: World, key: Key, code: string)
    requires History(c, w)
    ensures Invariant(c, VerifyWorld(c, w, key, code, w.now))
  {
    VerifyNowKeepsInvariant(c, w, key, code);
  }

  lemma VerifyNowKeepsHistory(c: Config, w: World, key: Key, code: string)
    requires History(c, w)
    ensures History(c, VerifyWorld(c, w, key, code, w.now))
  {
    if IsLocked(c, w.table, key, w.now) || Active(w.table.rows, key, w.now).None? {
      RefusedShape(c, w, key, code);
    } else {
      InvariantOfHistory(c, w, key, code);
      var i := ActiveIndex(w.table.rows, key, w.now);
      ActiveKeepsHistory(c, w, key, code, i);
    }
  }

  lemma PruneNowKeepsHistory(c: Config, w: World)
    requires History(c, w)
    ensures History(c, w.(table := PruneStep(c, w.table, w.now)))
  {
    PruneKeepsInvariant(c, w);
    var m := PruneIsSuffix(c, w.table, w.now);
    SuffixKeepsHistory(c, w, m, w.(table := PruneStep(c, w.table, w.now)));
  }

  lemma CallNowKeepsHistory(c: Config, w: World, call: Call)
    requires History(c, w) && w.now == call.at
    ensures History(c, Apply(c, w, call))
  {
    match call.op {
      case Issue(key, generated) => IssueNowKeepsHistory(c, w, key, generated);
      case Verify(key, code) => VerifyNowKeepsHistory(c, w, key, code);
      case Prune => PruneNowKeepsHistory(c, w);
    }
  }

  lemma AtItsInstant(c: Config, w: World, call: Call)
    ensures Apply(c, w, call) == Apply(c, w.(now := call.at), call) && Apply(c, w, call).now == call.at
  {
  }

  lemma CallKeepsHistory(c: Config, w: World, call: Call)
    requires History(c, w) && w.now <= call.at
    ensures History(c, Apply(c, w, call)) && Apply(c, w, call).now == call.at
  {
    LaterKeepsHistory(c, w, call.at);
    AtItsInstant(c, w, call);
    CallNowKeepsHistory(c, w.(now := call.at), call);
  }

  lemma StartHistory(c: Config, start: int)
    ensures History(c, World(EMPTY, start, [], [], []))
  {
    StartInvariant(c, start);
  }

  /** The history of every run has the order, the lock checks and the spacing that the table no longer shows. */
  lemma {:induction false} RunKeepsHistory(c: Config, start: int, calls: seq<Call>)
    requires Chronological(start, calls)
    ensures History(c, Run(c, start, calls))
    ensures Run(c, start, calls).now == if calls == [] then start else calls[|calls| - 1].at
  {
    if calls == [] {
      StartHistory(c, start);
    } else {
      var n := |calls| - 1;
      RunKeepsHistory(c, start, calls[..n]);
      CallKeepsHistory(c, Run(c, start, calls[..n]), calls[n]);
    }
  }
}
