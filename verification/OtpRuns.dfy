/**
 * Whole runs of one-time-password calls. Each call is atomic and carries its instant; the
 * world records, beside the table, every issue, failed verification and success.
 */
module OtpRuns {
  import opened Options
  import opened OtpTable
  import opened OtpService

  datatype Op =
    | Issue(key: Key, generated: string)
    | Verify(key: Key, code: string)
    | Prune

  datatype Call = Call(op: Op, at: int)

  datatype IssueEvent = IssueEvent(key: Key, at: int, id: nat)

  /** A rejected code: when, and the row it was tried against. */
  datatype FailEvent = FailEvent(key: Key, at: int, id: nat, created: int)

  datatype WinEvent = WinEvent(key: Key, at: int, id: nat, code: string)

  datatype World = World(table: Table, now: int, issues: seq<IssueEvent>, fails: seq<FailEvent>, wins: seq<WinEvent>)

  // ---------- Steps ----------

  function IssueWorld(c: Config, w: World, key: Key, generated: string, at: int): World {
    var (table, outcome) := IssueStep(c, w.table, key, generated, at);
    World(table, at, if outcome.Issued? then w.issues + [IssueEvent(key, at, w.table.nextId)] else w.issues, w.fails, w.wins)
  }

  function VerifyWorld(c: Config, w: World, key: Key, code: string, at: int): World {
    var (table, outcome) := VerifyStep(c, w.table, key, code, at);
    match Active(w.table.rows, key, at)
    case None => World(table, at, w.issues, w.fails, w.wins)
    case Some(r) =>
      World(
        table, at, w.issues,
        if outcome.InvalidCode? then w.fails + [FailEvent(key, at, r.id, r.createdAt)] else w.fails,
        if outcome.Verified? then w.wins + [WinEvent(key, at, r.id, code)] else w.wins)
  }

  function Apply(c: Config, w: World, call: Call): World {
    match call.op
    case Issue(key, generated) => IssueWorld(c, w, key, generated, call.at)
    case Verify(key, code) => VerifyWorld(c, w, key, code, call.at)
    case Prune => World(PruneStep(c, w.table, call.at), call.at, w.issues, w.fails, w.wins)
  }

  /** The world after the calls, from an empty table at instant `start`. */
  function Run(c: Config, start: int, calls: seq<Call>): World {
    if calls == [] then World(EMPTY, start, [], [], [])
    else Apply(c, Run(c, start, calls[..|calls| - 1]), calls[|calls| - 1])
  }

  lemma RunExtends(c: Config, start: int, calls: seq<Call>, last: Call)
    ensures Run(c, start, calls + [last]) == Apply(c, Run(c, start, calls), last)
  {
    assert (calls + [last])[..|calls|] == calls;
  }

  /** Calls are made at or after `start`, in the order of the clock. */
  ghost predicate Chronological(start: int, calls: seq<Call>) {
    && (forall i :: 0 <= i < |calls| ==> start <= calls[i].at)
    && (forall i, j :: 0 <= i < j < |calls| ==> calls[i].at <= calls[j].at)
  }

  // ---------- Counting events ----------

  /** Failed verifications with instant in [from, from + length]. */
  function FailsWithin(fails: seq<FailEvent>, key: Key, from: int, length: int): nat {
    if fails == [] then 0
    else
      var f := fails[|fails| - 1];
      FailsWithin(fails[..|fails| - 1], key, from, length) + if f.key == key && from <= f.at <= from + length then 1 else 0
  }

  /** Failed verifications against rows created at or after `since`. */
  function FailsOnRowsSince(fails: seq<FailEvent>, key: Key, since: int): nat {
    if fails == [] then 0
    else
      var f := fails[|fails| - 1];
      FailsOnRowsSince(fails[..|fails| - 1], key, since) + if f.key == key && f.created >= since then 1 else 0
  }

  function FailsOnRow(fails: seq<FailEvent>, id: nat): nat {
    if fails == [] then 0
    else FailsOnRow(fails[..|fails| - 1], id) + if fails[|fails| - 1].id == id then 1 else 0
  }

  /** Issues with instant in (after, after + length]. */
  function IssuesWithin(issues: seq<IssueEvent>, key: Key, after: int, length: int): nat {
    if issues == [] then 0
    else
      var e := issues[|issues| - 1];
      IssuesWithin(issues[..|issues| - 1], key, after, length) + if e.key == key && after < e.at <= after + length then 1 else 0
  }

  function IssuesAfter(issues: seq<IssueEvent>, key: Key, after: int): nat {
    if issues == [] then 0
    else
      var e := issues[|issues| - 1];
      IssuesAfter(issues[..|issues| - 1], key, after) + if e.key == key && e.at > after then 1 else 0
  }

  function LastIssue(issues: seq<IssueEvent>, key: Key): Option<nat> {
    if issues == [] then None
    else if issues[|issues| - 1].key == key then Some(issues[|issues| - 1].id)
    else LastIssue(issues[..|issues| - 1], key)
  }

  lemma FailsAppend(fails: seq<FailEvent>, f: FailEvent)
    ensures forall key, from, length :: FailsWithin(fails + [f], key, from, length)
              == FailsWithin(fails, key, from, length) + if f.key == key && from <= f.at <= from + length then 1 else 0
    ensures forall key, since :: FailsOnRowsSince(fails + [f], key, since)
              == FailsOnRowsSince(fails, key, since) + if f.key == key && f.created >= since then 1 else 0
    ensures forall id :: FailsOnRow(fails + [f], id) == FailsOnRow(fails, id) + if f.id == id then 1 else 0
  {
    assert (fails + [f])[..|fails|] == fails;
  }

  lemma IssuesAppend(issues: seq<IssueEvent>, e: IssueEvent)
    ensures forall key, after, length :: IssuesWithin(issues + [e], key, after, length)
              == IssuesWithin(issues, key, after, length) + if e.key == key && after < e.at <= after + length then 1 else 0
    ensures forall key, after :: IssuesAfter(issues + [e], key, after)
              == IssuesAfter(issues, key, after) + if e.key == key && e.at > after then 1 else 0
    ensures forall key :: LastIssue(issues + [e], key) == if e.key == key then Some(e.id) else LastIssue(issues, key)
  {
    assert (issues + [e])[..|issues|] == issues;
  }

  /**
   * Failures from `from` on were on rows still inside a window that starts no later than
   * `from` less the code lifetime.
   */
  lemma {:induction false} RecentFailsOnRecentRows(fails: seq<FailEvent>, ttl: int, key: Key, from: int, length: int, since: int)
    requires forall f :: f in fails ==> f.at - ttl < f.created
    requires since <= from - ttl + 1
    ensures FailsWithin(fails, key, from, length) <= FailsOnRowsSince(fails, key, since)
  {
    if fails != [] {
      var f := fails[|fails| - 1];
      assert f in fails;
      RecentFailsOnRecentRows(fails[..|fails| - 1], ttl, key, from, length, since);
    }
  }

  lemma {:induction false} IssuesWithinAfter(issues: seq<IssueEvent>, key: Key, a: int, length: int, after: int)
    requires after <= a
    ensures IssuesWithin(issues, key, a, length) <= IssuesAfter(issues, key, after)
  {
    if issues != [] {
      IssuesWithinAfter(issues[..|issues| - 1], key, a, length, after);
    }
  }

  lemma {:induction false} UnusedId(fails: seq<FailEvent>, id: nat)
    requires forall f :: f in fails ==> f.id < id
    ensures FailsOnRow(fails, id) == 0
  {
    if fails != [] {
      assert fails[|fails| - 1] in fails;
      UnusedId(fails[..|fails| - 1], id);
    }
  }

  // ---------- Invariant ----------

  /** Row lifetimes. */
  ghost predicate RowsSound(c: Config, t: Table, now: int) {
    Ordered(t, now) && forall i :: 0 <= i < |t.rows| ==> t.rows[i].expiresAt == t.rows[i].createdAt + Ms(c.ttl)
  }

  /** Only the newest row of a key can be unconsumed, and it is the last one issued. */
  ghost predicate NewestOnly(rows: seq<Row>, issues: seq<IssueEvent>) {
    && (forall i, j :: 0 <= i < j < |rows| && rows[i].key == rows[j].key ==> rows[i].consumedAt.Some?)
    && (forall i :: 0 <= i < |rows| && rows[i].consumedAt.None? ==> LastIssue(issues, rows[i].key) == Some(rows[i].id))
  }

  /** From `cutoff` on, the table's sums are the failures of the history. */
  ghost predicate SumsMirror(rows: seq<Row>, fails: seq<FailEvent>, cutoff: int) {
    forall key, since :: since >= cutoff ==> SumSince(rows, key, since) == FailsOnRowsSince(fails, key, since)
  }

  /** From `cutoff` on, the table's counts are the issues of the history. */
  ghost predicate CountsMirror(rows: seq<Row>, issues: seq<IssueEvent>, cutoff: int) {
    forall key, since :: since >= cutoff ==> CountSince(rows, key, since) == IssuesAfter(issues, key, since)
  }

  /** Each failure hit a row that was alive. */
  ghost predicate FailsTimed(c: Config, fails: seq<FailEvent>, nextId: nat, now: int) {
    forall f :: f in fails ==> f.at - Ms(c.ttl) < f.created && f.at <= now && f.id < nextId
  }

  /** A row's attempts are the failures against it, and no row exceeds the cap. */
  ghost predicate AttemptsMirror(c: Config, rows: seq<Row>, fails: seq<FailEvent>) {
    && (forall i :: 0 <= i < |rows| ==> rows[i].attempts == FailsOnRow(fails, rows[i].id))
    && (forall id :: FailsOnRow(fails, id) <= c.maxAttempts)
  }

  ghost predicate IssuesTimed(issues: seq<IssueEvent>, now: int) {
    forall e :: e in issues ==> e.at <= now
  }

  /** Successes are on distinct rows, which stay consumed. */
  ghost predicate WinsSound(t: Table, wins: seq<WinEvent>) {
    && (forall i, j :: 0 <= i < j < |wins| ==> wins[i].id != wins[j].id)
    && (forall i :: 0 <= i < |wins| ==> wins[i].id < t.nextId)
    && (forall i, k :: 0 <= i < |wins| && 0 <= k < |t.rows| && t.rows[k].id == wins[i].id ==> t.rows[k].consumedAt.Some?)
  }

  /** The lock window less the code lifetime, and one more millisecond, the clock's grain. */
  function GuardedLength(c: Config): int {
    Ms(c.lockWindow) - Ms(c.ttl) + 1
  }

  ghost predicate FailuresCapped(c: Config, fails: seq<FailEvent>) {
    c.lockWindow >= c.ttl ==>
      forall key, from :: FailsWithin(fails, key, from, GuardedLength(c)) <= c.maxFailures
  }

  ghost predicate IssuesCapped(c: Config, issues: seq<IssueEvent>) {
    forall key, after :: IssuesWithin(issues, key, after, Ms(c.issueWindow)) <= c.maxIssues
  }

  function Cutoff(c: Config, now: int): int {
    now - Ms(Retention(c))
  }

  ghost predicate Invariant(c: Config, w: World) {
    && RowsSound(c, w.table, w.now)
    && NewestOnly(w.table.rows, w.issues)
    && SumsMirror(w.table.rows, w.fails, Cutoff(c, w.now))
    && CountsMirror(w.table.rows, w.issues, Cutoff(c, w.now))
    && FailsTimed(c, w.fails, w.table.nextId, w.now)
    && AttemptsMirror(c, w.table.rows, w.fails)
    && IssuesTimed(w.issues, w.now)
    && WinsSound(w.table, w.wins)
    && FailuresCapped(c, w.fails)
    && IssuesCapped(c, w.issues)
  }

  lemma Later(c: Config, w: World, at: int)
    requires Invariant(c, w) && w.now <= at
    ensures Invariant(c, w.(now := at))
  {
  }

  // ---------- Issue ----------

  function RowsAfterIssue(c: Config, t: Table, key: Key, generated: string, now: int): seq<Row> {
    InvalidateActive(t.rows, key, now) + [NewRow(c, t.nextId, key, generated, now)]
  }

  lemma IssueKeepsRows(c: Config, t: Table, key: Key, generated: string, now: int)
    requires RowsSound(c, t, now)
    ensures RowsSound(c, Table(RowsAfterIssue(c, t, key, generated, now), t.nextId + 1), now)
  {
    var out := RowsAfterIssue(c, t, key, generated, now);
    assert forall i :: 0 <= i < |t.rows| ==> out[i] == Invalidated(t.rows[i], key, now);
  }

  lemma IssueKeepsNewest(c: Config, t: Table, issues: seq<IssueEvent>, key: Key, generated: string, now: int)
    requires NewestOnly(t.rows, issues)
    ensures NewestOnly(RowsAfterIssue(c, t, key, generated, now), issues + [IssueEvent(key, now, t.nextId)])
  {
    var out := RowsAfterIssue(c, t, key, generated, now);
    assert forall i :: 0 <= i < |t.rows| ==> out[i] == Invalidated(t.rows[i], key, now);
    IssuesAppend(issues, IssueEvent(key, now, t.nextId));
  }

  lemma IssueKeepsSums(c: Config, t: Table, fails: seq<FailEvent>, key: Key, generated: string, now: int, cutoff: int)
    requires SumsMirror(t.rows, fails, cutoff)
    ensures SumsMirror(RowsAfterIssue(c, t, key, generated, now), fails, cutoff)
  {
    var row := NewRow(c, t.nextId, key, generated, now);
    var kept := InvalidateActive(t.rows, key, now);
    forall k, since | since >= cutoff
      ensures SumSince(kept + [row], k, since) == FailsOnRowsSince(fails, k, since)
    {
      CountsAgree(t.rows, kept, k, since);
      CountsAppend(kept, row, k, since);
    }
  }

  lemma IssueKeepsCounts(c: Config, t: Table, issues: seq<IssueEvent>, key: Key, generated: string, now: int, cutoff: int)
    requires CountsMirror(t.rows, issues, cutoff)
    ensures CountsMirror(RowsAfterIssue(c, t, key, generated, now), issues + [IssueEvent(key, now, t.nextId)], cutoff)
  {
    var row := NewRow(c, t.nextId, key, generated, now);
    var kept := InvalidateActive(t.rows, key, now);
    IssuesAppend(issues, IssueEvent(key, now, t.nextId));
    forall k, since | since >= cutoff
      ensures CountSince(kept + [row], k, since) == IssuesAfter(issues + [IssueEvent(key, now, t.nextId)], k, since)
    {
      CountsAgree(t.rows, kept, k, since);
      CountsAppend(kept, row, k, since);
    }
  }

  lemma IssueKeepsAttempts(c: Config, t: Table, fails: seq<FailEvent>, key: Key, generated: string, now: int)
    requires AttemptsMirror(c, t.rows, fails) && FailsTimed(c, fails, t.nextId, now)
    ensures AttemptsMirror(c, RowsAfterIssue(c, t, key, generated, now), fails)
  {
    var out := RowsAfterIssue(c, t, key, generated, now);
    assert forall i :: 0 <= i < |t.rows| ==> out[i] == Invalidated(t.rows[i], key, now);
    UnusedId(fails, t.nextId);
  }

  lemma IssueKeepsWins(c: Config, t: Table, wins: seq<WinEvent>, key: Key, generated: string, now: int)
    requires WinsSound(t, wins)
    ensures WinsSound(Table(RowsAfterIssue(c, t, key, generated, now), t.nextId + 1), wins)
  {
    var out := RowsAfterIssue(c, t, key, generated, now);
    assert forall i :: 0 <= i < |t.rows| ==> out[i] == Invalidated(t.rows[i], key, now);
  }

  /** The rate check caps the issues of every half-open window that ends by now. */
  lemma IssueKeepsCap(c: Config, t: Table, issues: seq<IssueEvent>, key: Key, now: int)
    requires CountsMirror(t.rows, issues, Cutoff(c, now)) && IssuesCapped(c, issues)
    requires !RateExceeded(c, t, key, now)
    ensures IssuesCapped(c, issues + [IssueEvent(key, now, t.nextId)])
  {
    var e := IssueEvent(key, now, t.nextId);
    var since := now - Ms(c.issueWindow);
    IssuesAppend(issues, e);
    assert CountSince(t.rows, key, since) == IssuesAfter(issues, key, since);
    forall k, after
      ensures IssuesWithin(issues + [e], k, after, Ms(c.issueWindow)) <= c.maxIssues
    {
      if k == key && after < now <= after + Ms(c.issueWindow) {
        IssuesWithinAfter(issues, key, after, Ms(c.issueWindow), since);
      }
    }
  }

  lemma IssueKeepsInvariant(c: Config, w: World, key: Key, generated: string)
    requires Invariant(c, w)
    requires !RateExceeded(c, w.table, key, w.now)
    ensures Invariant(c, World(
              Table(RowsAfterIssue(c, w.table, key, generated, w.now), w.table.nextId + 1),
              w.now, w.issues + [IssueEvent(key, w.now, w.table.nextId)], w.fails, w.wins))
  {
    IssueKeepsRows(c, w.table, key, generated, w.now);
    IssueKeepsNewest(c, w.table, w.issues, key, generated, w.now);
    IssueKeepsSums(c, w.table, w.fails, key, generated, w.now, Cutoff(c, w.now));
    IssueKeepsCounts(c, w.table, w.issues, key, generated, w.now, Cutoff(c, w.now));
    IssueKeepsAttempts(c, w.table, w.fails, key, generated, w.now);
    IssueKeepsWins(c, w.table, w.wins, key, generated, w.now);
    IssueKeepsCap(c, w.table, w.issues, key, w.now);
  }

  // ---------- Consuming a row ----------

  lemma ConsumeKeepsRows(c: Config, t: Table, issues: seq<IssueEvent>, fails: seq<FailEvent>, id: nat, now: int)
    requires RowsSound(c, t, now) && NewestOnly(t.rows, issues) && AttemptsMirror(c, t.rows, fails)
    ensures RowsSound(c, Table(MarkConsumed(t.rows, id, now), t.nextId), now)
    ensures NewestOnly(MarkConsumed(t.rows, id, now), issues)
    ensures AttemptsMirror(c, MarkConsumed(t.rows, id, now), fails)
  {
  }

  lemma ConsumeKeepsCounts(rows: seq<Row>, issues: seq<IssueEvent>, fails: seq<FailEvent>, id: nat, now: int, cutoff: int)
    requires SumsMirror(rows, fails, cutoff) && CountsMirror(rows, issues, cutoff)
    ensures SumsMirror(MarkConsumed(rows, id, now), fails, cutoff)
    ensures CountsMirror(MarkConsumed(rows, id, now), issues, cutoff)
  {
    forall k, since | since >= cutoff
      ensures SumSince(MarkConsumed(rows, id, now), k, since) == FailsOnRowsSince(fails, k, since)
      ensures CountSince(MarkConsumed(rows, id, now), k, since) == IssuesAfter(issues, k, since)
    {
      CountsAgree(rows, MarkConsumed(rows, id, now), k, since);
    }
  }

  lemma ConsumeKeepsWins(t: Table, wins: seq<WinEvent>, id: nat, now: int)
    requires WinsSound(t, wins)
    ensures WinsSound(Table(MarkConsumed(t.rows, id, now), t.nextId), wins)
  {
  }

  /** A success consumes a row that was still unconsumed, so no earlier success was on it. */
  lemma WinOnNewRow(t: Table, wins: seq<WinEvent>, i: nat, win: WinEvent, now: int)
    requires WinsSound(t, wins)
    requires i < |t.rows| && t.rows[i].consumedAt.None? && win.id == t.rows[i].id < t.nextId
    ensures WinsSound(Table(MarkConsumed(t.rows, win.id, now), t.nextId), wins + [win])
  {
    ConsumeKeepsWins(t, wins, win.id, now);
    forall k | 0 <= k < |wins|
      ensures wins[k].id != win.id
    {
    }
  }

  lemma ConsumeKeepsInvariant(c: Config, w: World, id: nat, wins: seq<WinEvent>)
    requires Invariant(c, w)
    requires WinsSound(Table(MarkConsumed(w.table.rows, id, w.now), w.table.nextId), wins)
    ensures Invariant(c, World(Table(MarkConsumed(w.table.rows, id, w.now), w.table.nextId), w.now, w.issues, w.fails, wins))
  {
    ConsumeKeepsRows(c, w.table, w.issues, w.fails, id, w.now);
    ConsumeKeepsCounts(w.table.rows, w.issues, w.fails, id, w.now, Cutoff(c, w.now));
  }

  // ---------- A failed verification ----------

  function RowsAfterFail(rows: seq<Row>, i: nat): seq<Row>
    requires i < |rows|
  {
    rows[i := rows[i].(attempts := rows[i].attempts + 1)]
  }

  function FailOn(r: Row, now: int): FailEvent {
    FailEvent(r.key, now, r.id, r.createdAt)
  }

  lemma FailKeepsRows(c: Config, t: Table, issues: seq<IssueEvent>, wins: seq<WinEvent>, i: nat, now: int)
    requires RowsSound(c, t, now) && NewestOnly(t.rows, issues) && WinsSound(t, wins)
    requires i < |t.rows|
    ensures RowsSound(c, Table(RowsAfterFail(t.rows, i), t.nextId), now)
    ensures NewestOnly(RowsAfterFail(t.rows, i), issues)
    ensures WinsSound(Table(RowsAfterFail(t.rows, i), t.nextId), wins)
  {
  }

  lemma FailKeepsCounts(rows: seq<Row>, issues: seq<IssueEvent>, fails: seq<FailEvent>, i: nat, now: int, cutoff: int)
    requires SumsMirror(rows, fails, cutoff) && CountsMirror(rows, issues, cutoff)
    requires i < |rows|
    ensures SumsMirror(RowsAfterFail(rows, i), fails + [FailOn(rows[i], now)], cutoff)
    ensures CountsMirror(RowsAfterFail(rows, i), issues, cutoff)
  {
    FailsAppend(fails, FailOn(rows[i], now));
    forall k, since | since >= cutoff
      ensures SumSince(RowsAfterFail(rows, i), k, since) == FailsOnRowsSince(fails + [FailOn(rows[i], now)], k, since)
      ensures CountSince(RowsAfterFail(rows, i), k, since) == IssuesAfter(issues, k, since)
    {
      SumIncrement(rows, i, k, since);
      CountIncrement(rows, i, k, since);
    }
  }

  lemma FailKeepsAttempts(c: Config, t: Table, fails: seq<FailEvent>, i: nat, now: int)
    requires RowsSound(c, t, now) && AttemptsMirror(c, t.rows, fails)
    requires i < |t.rows| && t.rows[i].attempts < c.maxAttempts
    ensures AttemptsMirror(c, RowsAfterFail(t.rows, i), fails + [FailOn(t.rows[i], now)])
  {
    FailsAppend(fails, FailOn(t.rows[i], now));
    assert forall j :: 0 <= j < |t.rows| && j != i ==> t.rows[j].id != t.rows[i].id;
  }

  /** The lock check caps the failures of every interval that ends by now. */
  lemma FailKeepsCap(c: Config, t: Table, fails: seq<FailEvent>, r: Row, now: int)
    requires SumsMirror(t.rows, fails, Cutoff(c, now)) && FailsTimed(c, fails, t.nextId, now) && FailuresCapped(c, fails)
    requires !IsLocked(c, t, r.key, now)
    ensures FailuresCapped(c, fails + [FailOn(r, now)])
  {
    var f := FailOn(r, now);
    var length := GuardedLength(c);
    var since := now - Ms(c.lockWindow);
    FailsAppend(fails, f);
    assert SumSince(t.rows, r.key, since) == FailsOnRowsSince(fails, r.key, since);
    if c.lockWindow >= c.ttl {
      forall k, from
        ensures FailsWithin(fails + [f], k, from, length) <= c.maxFailures
      {
        if k == r.key && from <= now <= from + length {
          RecentFailsOnRecentRows(fails, Ms(c.ttl), k, from, length, since);
        }
      }
    }
  }

  lemma FailKeepsInvariant(c: Config, w: World, i: nat)
    requires Invariant(c, w) && i < |w.table.rows|
    requires w.table.rows[i].attempts < c.maxAttempts && w.table.rows[i].expiresAt > w.now
    requires !IsLocked(c, w.table, w.table.rows[i].key, w.now)
    ensures Invariant(c, World(
              Table(RowsAfterFail(w.table.rows, i), w.table.nextId),
              w.now, w.issues, w.fails + [FailOn(w.table.rows[i], w.now)], w.wins))
  {
    FailKeepsRows(c, w.table, w.issues, w.wins, i, w.now);
    FailKeepsCounts(w.table.rows, w.issues, w.fails, i, w.now, Cutoff(c, w.now));
    FailKeepsAttempts(c, w.table, w.fails, i, w.now);
    FailKeepsCap(c, w.table, w.fails, w.table.rows[i], w.now);
  }

  // ---------- Pruning ----------

  lemma PruneKeepsCounts(rows: seq<Row>, m: nat, issues: seq<IssueEvent>, fails: seq<FailEvent>, cutoff: int)
    requires SumsMirror(rows, fails, cutoff) && CountsMirror(rows, issues, cutoff)
    requires m <= |rows| && forall i :: 0 <= i < m ==> rows[i].createdAt < cutoff
    ensures SumsMirror(rows[m..], fails, cutoff) && CountsMirror(rows[m..], issues, cutoff)
  {
    forall k, since | since >= cutoff
      ensures SumSince(rows[m..], k, since) == FailsOnRowsSince(fails, k, since)
      ensures CountSince(rows[m..], k, since) == IssuesAfter(issues, k, since)
    {
      CountsSkipOld(rows, m, k, since);
    }
  }

  lemma SuffixKeepsRows(c: Config, t: Table, m: nat, issues: seq<IssueEvent>, fails: seq<FailEvent>, wins: seq<WinEvent>, now: int)
    requires RowsSound(c, t, now) && NewestOnly(t.rows, issues) && AttemptsMirror(c, t.rows, fails) && WinsSound(t, wins)
    requires m <= |t.rows|
    ensures RowsSound(c, Table(t.rows[m..], t.nextId), now) && NewestOnly(t.rows[m..], issues)
    ensures AttemptsMirror(c, t.rows[m..], fails) && WinsSound(Table(t.rows[m..], t.nextId), wins)
  {
  }

  lemma SuffixKeepsInvariant(c: Config, w: World, m: nat)
    requires Invariant(c, w) && m <= |w.table.rows|
    requires forall i :: 0 <= i < m ==> w.table.rows[i].createdAt < Cutoff(c, w.now)
    ensures Invariant(c, w.(table := Table(w.table.rows[m..], w.table.nextId)))
  {
    PruneKeepsCounts(w.table.rows, m, w.issues, w.fails, Cutoff(c, w.now));
    SuffixKeepsRows(c, w.table, m, w.issues, w.fails, w.wins, w.now);
  }

  /** Pruning an ordered table drops a prefix of rows older than every window. */
  lemma PruneIsSuffix(c: Config, t: Table, now: int) returns (m: nat)
    requires RowsSound(c, t, now)
    ensures m <= |t.rows| && PruneStep(c, t, now) == Table(t.rows[m..], t.nextId)
    ensures forall i :: 0 <= i < m ==> t.rows[i].createdAt < Cutoff(c, now)
    ensures forall i :: m <= i < |t.rows| ==> t.rows[i].createdAt >= Cutoff(c, now)
  {
    m := DeleteDropsPrefix(t.rows, Cutoff(c, now));
  }

  lemma PruneKeepsInvariant(c: Config, w: World)
    requires Invariant(c, w)
    ensures Invariant(c, w.(table := PruneStep(c, w.table, w.now)))
  {
    var m := PruneIsSuffix(c, w.table, w.now);
    SuffixKeepsInvariant(c, w, m);
  }

  // ---------- Every run ----------

  lemma IssueNowKeepsInvariant(c: Config, w: World, key: Key, generated: string)
    requires Invariant(c, w)
    ensures Invariant(c, IssueWorld(c, w, key, generated, w.now))
  {
    if IssueStep(c, w.table, key, generated, w.now).1.Issued? {
      IssueKeepsInvariant(c, w, key, generated);
    }
  }

  lemma VerifyNowKeepsInvariant(c: Config, w: World, key: Key, code: string)
    requires Invariant(c, w)
    ensures Invariant(c, VerifyWorld(c, w, key, code, w.now))
  {
    if !IsLocked(c, w.table, key, w.now) && Active(w.table.rows, key, w.now).Some? {
      var i := ActiveIndex(w.table.rows, key, w.now);
      ActiveRowOutcome(c, w, key, code, i);
    }
  }

  lemma ExhaustedKeepsInvariant(c: Config, w: World, key: Key, code: string, i: nat)
    requires Invariant(c, w)
    requires !IsLocked(c, w.table, key, w.now)
    requires i < |w.table.rows| && Active(w.table.rows, key, w.now) == Some(w.table.rows[i])
    requires w.table.rows[i].attempts >= c.maxAttempts
    ensures Invariant(c, VerifyWorld(c, w, key, code, w.now))
  {
    var r := w.table.rows[i];
    ConsumeKeepsWins(w.table, w.wins, r.id, w.now);
    ConsumeKeepsInvariant(c, w, r.id, w.wins);
  }

  lemma MismatchKeepsInvariant(c: Config, w: World, key: Key, code: string, i: nat)
    requires Invariant(c, w)
    requires !IsLocked(c, w.table, key, w.now)
    requires i < |w.table.rows| && Active(w.table.rows, key, w.now) == Some(w.table.rows[i])
    requires w.table.rows[i].attempts < c.maxAttempts && Digest(code) != w.table.rows[i].codeHash
    ensures Invariant(c, VerifyWorld(c, w, key, code, w.now))
  {
    IncrementIsPoint(w.table, w.now, i);
    FailKeepsInvariant(c, w, i);
  }

  lemma MatchKeepsInvariant(c: Config, w: World, key: Key, code: string, i: nat)
    requires Invariant(c, w)
    requires !IsLocked(c, w.table, key, w.now)
    requires i < |w.table.rows| && Active(w.table.rows, key, w.now) == Some(w.table.rows[i])
    requires w.table.rows[i].attempts < c.maxAttempts && Digest(code) == w.table.rows[i].codeHash
    ensures Invariant(c, VerifyWorld(c, w, key, code, w.now))
  {
    var r := w.table.rows[i];
    var win := WinEvent(key, w.now, r.id, code);
    WinOnNewRow(w.table, w.wins, i, win, w.now);
    ConsumeKeepsInvariant(c, w, r.id, w.wins + [win]);
  }

  lemma ActiveRowOutcome(c: Config, w: World, key: Key, code: string, i: nat)
    requires Invariant(c, w)
    requires !IsLocked(c, w.table, key, w.now)
    requires i < |w.table.rows| && Active(w.table.rows, key, w.now) == Some(w.table.rows[i])
    ensures Invariant(c, VerifyWorld(c, w, key, code, w.now))
  {
    if w.table.rows[i].attempts >= c.maxAttempts {
      ExhaustedKeepsInvariant(c, w, key, code, i);
    } else if Digest(code) != w.table.rows[i].codeHash {
      MismatchKeepsInvariant(c, w, key, code, i);
    } else {
      MatchKeepsInvariant(c, w, key, code, i);
    }
  }

  lemma CallKeepsInvariant(c: Config, w: World, call: Call)
    requires Invariant(c, w) && w.now <= call.at
    ensures Invariant(c, Apply(c, w, call)) && Apply(c, w, call).now == call.at
  {
    Later(c, w, call.at);
    var v := w.(now := call.at);
    assert Apply(c, w, call) == Apply(c, v, call);
    match call.op {
      case Issue(key, generated) => IssueNowKeepsInvariant(c, v, key, generated);
      case Verify(key, code) => VerifyNowKeepsInvariant(c, v, key, code);
      case Prune => PruneKeepsInvariant(c, v);
    }
  }

  lemma StartInvariant(c: Config, start: int)
    ensures Invariant(c, World(EMPTY, start, [], [], []))
  {
  }

  lemma {:induction false} RunKeepsInvariant(c: Config, start: int, calls: seq<Call>)
    requires Chronological(start, calls)
    ensures Invariant(c, Run(c, start, calls))
    ensures Run(c, start, calls).now == if calls == [] then start else calls[|calls| - 1].at
  {
    if calls == [] {
      StartInvariant(c, start);
    } else {
      var n := |calls| - 1;
      RunKeepsInvariant(c, start, calls[..n]);
      CallKeepsInvariant(c, Run(c, start, calls[..n]), calls[n]);
    }
  }

  /**
   * Failed verifications of one phone and purpose: at most the configured maximum in any
   * interval of the guarded length, both ends included, although the service counts attempts
   * by the age of the code and not by when they were made.
   */
  lemma FailureCap(c: Config, start: int, calls: seq<Call>, key: Key, from: int)
    requires Chronological(start, calls) && c.lockWindow >= c.ttl
    ensures FailsWithin(Run(c, start, calls).fails, key, from, GuardedLength(c)) <= c.maxFailures
  {
    RunKeepsInvariant(c, start, calls);
  }

  /** Issues of one phone and purpose: at most the maximum in any half-open issue window. */
  lemma IssueCap(c: Config, start: int, calls: seq<Call>, key: Key, after: int)
    requires Chronological(start, calls)
    ensures IssuesWithin(Run(c, start, calls).issues, key, after, Ms(c.issueWindow)) <= c.maxIssues
  {
    RunKeepsInvariant(c, start, calls);
  }

  /** No code is ever tried wrongly more often than the per-code cap, even after its row is gone. */
  lemma AttemptCap(c: Config, start: int, calls: seq<Call>, id: nat)
    requires Chronological(start, calls)
    ensures FailsOnRow(Run(c, start, calls).fails, id) <= c.maxAttempts
  {
    RunKeepsInvariant(c, start, calls);
  }

  /** At most one row of a key is unconsumed, and it is the one issued last. */
  lemma OneActiveCode(c: Config, start: int, calls: seq<Call>)
    requires Chronological(start, calls)
    ensures NewestOnly(Run(c, start, calls).table.rows, Run(c, start, calls).issues)
  {
    RunKeepsInvariant(c, start, calls);
  }

  /** No issued code is redeemed twice in a run. */
  lemma RedeemedOnce(c: Config, start: int, calls: seq<Call>, i: nat, j: nat)
    requires Chronological(start, calls)
    requires i < j < |Run(c, start, calls).wins|
    ensures Run(c, start, calls).wins[i].id != Run(c, start, calls).wins[j].id
  {
    RunKeepsInvariant(c, start, calls);
  }

  /**
   * A verification that succeeds presented the very code of the last issue for its phone and
   * purpose, before that code expired.
   */
  lemma VerifiedIsLastIssued(c: Config, start: int, calls: seq<Call>, key: Key, code: string, at: int) returns (r: Row)
    requires Chronological(start, calls)
    requires VerifyStep(c, Run(c, start, calls).table, key, code, at).1 == Verified
    ensures r in Run(c, start, calls).table.rows && r.key == key && r.codeHash == Digest(code)
    ensures LastIssue(Run(c, start, calls).issues, key) == Some(r.id) && at < r.createdAt + Ms(c.ttl)
  {
    RunKeepsInvariant(c, start, calls);
    var rows := Run(c, start, calls).table.rows;
    var i := ActiveIndex(rows, key, at);
    r := rows[i];
  }
}
