/**
 * When overlapping verifications fail. Beside the stepwise state a trace keeps when each call
 * in flight passed its lock check, and every failure with its instant.
 */
module OtpDuration {
  import opened OtpTable
  import opened OtpService
  import opened Totals
  import opened OtpInterleaving
  import R = OtpRuns

  datatype Trace = Trace(state: State, begun: seq<int>, fails: seq<R.FailEvent>)

  /** The next statement of the call rejects its code. */
  predicate Misses(c: Config, f: Flight) {
    f.Holding? && f.row.attempts < c.maxAttempts && Digest(f.code) != f.row.codeHash
  }

  function FailOf(f: Flight, now: int): R.FailEvent
    requires f.Holding?
  {
    R.FailEvent(f.key, now, f.row.id, f.row.createdAt)
  }

  function Record(c: Config, s: State, fails: seq<R.FailEvent>, step: Step): seq<R.FailEvent> {
    if step.Advance? && step.flight < |s.flights| && Misses(c, s.flights[step.flight])
    then fails + [FailOf(s.flights[step.flight], s.now)]
    else fails
  }

  function Follow(c: Config, t: Trace, step: Step): Trace {
    var next := Apply(c, t.state, step);
    Trace(next, if |next.flights| > |t.state.flights| then t.begun + [t.state.now] else t.begun, Record(c, t.state, t.fails, step))
  }

  function Traced(c: Config, start: int, steps: seq<Step>): Trace {
    if steps == [] then Trace(State(EMPTY, start, [], multiset{}), [], [])
    else Follow(c, Traced(c, start, steps[..|steps| - 1]), steps[|steps| - 1])
  }

  lemma {:induction false} TracedIsRun(c: Config, start: int, steps: seq<Step>)
    ensures Traced(c, start, steps).state == Run(c, start, steps)
  {
    if steps != [] {
      TracedIsRun(c, start, steps[..|steps| - 1]);
    }
  }

  /** The step is not the late statement of a verification that passed its lock check more than `d` ago. */
  predicate InTime(t: Trace, step: Step, d: nat) {
    step.Advance? && step.flight < |t.state.flights| && step.flight < |t.begun| && t.state.flights[step.flight].Holding? ==>
      t.state.now - t.begun[step.flight] <= d
  }

  /** Every verification makes its last statement within `d` milliseconds of its lock check. */
  ghost predicate DurationAtMost(c: Config, start: int, steps: seq<Step>, d: nat) {
    forall n :: 0 <= n < |steps| ==> InTime(Traced(c, start, steps[..n]), steps[n], d)
  }

  // ---------- Verifications that may still fail by an instant ----------

  datatype Timed = Timed(flight: Flight, begun: int)

  function Pairs(flights: seq<Flight>, begun: seq<int>): seq<Timed>
    requires |begun| == |flights|
  {
    seq(|flights|, i requires 0 <= i < |flights| => Timed(flights[i], begun[i]))
  }

  function VerifyingBy(key: Key, until: int): Timed -> nat {
    (p: Timed) => if p.begun <= until && (p.flight.Checked? || p.flight.Holding?) && p.flight.key == key then 1 else 0
  }

  lemma {:induction false} PendingVerify(flights: seq<Flight>, begun: seq<int>, key: Key, until: int)
    requires |begun| == |flights|
    ensures Total(Pairs(flights, begun), VerifyingBy(key, until)) <= Total(flights, Verifying(key))
  {
    if flights != [] {
      var n := |flights| - 1;
      assert Pairs(flights, begun)[..n] == Pairs(flights[..n], begun[..n]);
      PendingVerify(flights[..n], begun[..n], key, until);
    }
  }

  lemma PairsUpdate(flights: seq<Flight>, begun: seq<int>, i: nat, f: Flight, key: Key, until: int)
    requires |begun| == |flights| && i < |flights|
    ensures Total(Pairs(flights[i := f], begun), VerifyingBy(key, until)) + VerifyingBy(key, until)(Timed(flights[i], begun[i]))
         == Total(Pairs(flights, begun), VerifyingBy(key, until)) + VerifyingBy(key, until)(Timed(f, begun[i]))
  {
    assert Pairs(flights[i := f], begun) == Pairs(flights, begun)[i := Timed(f, begun[i])];
    TotalUpdate(Pairs(flights, begun), i, Timed(f, begun[i]), VerifyingBy(key, until));
  }

  lemma PairsAppend(flights: seq<Flight>, begun: seq<int>, f: Flight, now: int, key: Key, until: int)
    requires |begun| == |flights|
    ensures Total(Pairs(flights + [f], begun + [now]), VerifyingBy(key, until))
         == Total(Pairs(flights, begun), VerifyingBy(key, until)) + VerifyingBy(key, until)(Timed(f, now))
  {
    assert Pairs(flights + [f], begun + [now]) == Pairs(flights, begun) + [Timed(f, now)];
    TotalAppend(Pairs(flights, begun), Timed(f, now), VerifyingBy(key, until));
  }

  // ---------- Invariant ----------

  ghost predicate RowsTimed(c: Config, rows: seq<Row>) {
    forall i :: 0 <= i < |rows| ==> rows[i].expiresAt == rows[i].createdAt + Ms(c.ttl)
  }

  /** The row was alive when it was read, after the lock check. */
  ghost predicate HeldYoung(c: Config, flights: seq<Flight>, begun: seq<int>, now: int) {
    && |begun| == |flights|
    && (forall i :: 0 <= i < |begun| ==> begun[i] <= now)
    && forall i :: 0 <= i < |flights| && flights[i].Holding? ==>
         flights[i].row.createdAt > begun[i] - Ms(c.ttl) && flights[i].row.key == flights[i].key
  }

  ghost predicate HasRow(rows: seq<Row>, id: nat) {
    exists i :: 0 <= i < |rows| && rows[i].id == id
  }

  /** The row that was read is still in the table, or has left both windows. */
  ghost predicate Tracks(rows: seq<Row>, cutoff: int, r: Row) {
    && (r.createdAt >= cutoff ==> HasRow(rows, r.id))
    && forall j :: 0 <= j < |rows| && rows[j].id == r.id ==> rows[j].createdAt == r.createdAt && rows[j].key == r.key
  }

  ghost predicate HeldTracked(rows: seq<Row>, cutoff: int, flights: seq<Flight>) {
    forall i :: 0 <= i < |flights| && flights[i].Holding? ==> Tracks(rows, cutoff, flights[i].row)
  }

  ghost predicate FailsYoung(c: Config, d: nat, fails: seq<R.FailEvent>) {
    forall f :: f in fails ==> f.at - (Ms(c.ttl) + d) < f.created
  }

  /** The lock window less the code lifetime and the longest duration, and one more millisecond. */
  function Guarded(c: Config, d: nat): int {
    R.GuardedLength(c) - d
  }

  /** Failures in an interval of that length, and verifications that may still add one. */
  ghost predicate TimesBounded(c: Config, load: Load, d: nat, flights: seq<Flight>, begun: seq<int>, fails: seq<R.FailEvent>)
    requires |begun| == |flights|
  {
    forall key, from ::
      R.FailsWithin(fails, key, from, Guarded(c, d)) + Total(Pairs(flights, begun), VerifyingBy(key, from + Guarded(c, d)))
        <= c.maxFailures - 1 + load.verifies
  }

  ghost predicate Sound(c: Config, load: Load, d: nat, t: Trace) {
    && RowsTimed(c, t.state.table.rows)
    && HeldYoung(c, t.state.flights, t.begun, t.state.now)
    && HeldTracked(t.state.table.rows, R.Cutoff(c, t.state.now), t.state.flights)
    && FailsYoung(c, d, t.fails)
    && R.SumsMirror(t.state.table.rows, t.fails, R.Cutoff(c, t.state.now))
    && TimesBounded(c, load, d, t.state.flights, t.begun, t.fails)
  }

  // ---------- Rows ----------

  /** Row by row the same, except that some may have been consumed. */
  ghost predicate Same(out: seq<Row>, rows: seq<Row>) {
    && |out| == |rows|
    && forall i :: 0 <= i < |rows| ==>
         out[i].id == rows[i].id && out[i].key == rows[i].key && out[i].attempts == rows[i].attempts
         && out[i].createdAt == rows[i].createdAt && out[i].expiresAt == rows[i].expiresAt
  }

  lemma SameKeepsRows(c: Config, rows: seq<Row>, out: seq<Row>, fails: seq<R.FailEvent>, cutoff: int)
    requires Same(out, rows) && RowsTimed(c, rows) && R.SumsMirror(rows, fails, cutoff)
    ensures RowsTimed(c, out) && R.SumsMirror(out, fails, cutoff)
  {
    forall key, since | since >= cutoff
      ensures SumSince(out, key, since) == R.FailsOnRowsSince(fails, key, since)
    {
      CountsAgree(rows, out, key, since);
    }
  }

  lemma SameKeepsTracked(rows: seq<Row>, out: seq<Row>, cutoff: int, flights: seq<Flight>)
    requires HeldTracked(rows, cutoff, flights)
    requires |out| == |rows| && forall i :: 0 <= i < |rows| ==>
               out[i].id == rows[i].id && out[i].key == rows[i].key && out[i].createdAt == rows[i].createdAt
    ensures HeldTracked(out, cutoff, flights)
  {
    forall i | 0 <= i < |flights| && flights[i].Holding?
      ensures Tracks(out, cutoff, flights[i].row)
    {
      assert Tracks(rows, cutoff, flights[i].row);
      if HasRow(rows, flights[i].row.id) {
        var j :| 0 <= j < |rows| && rows[j].id == flights[i].row.id;
        assert out[j].id == flights[i].row.id;
      }
    }
  }

  lemma InsertKeepsTracked(t: Table, r: Row, cutoff: int, flights: seq<Flight>)
    requires HeldTracked(t.rows, cutoff, flights) && HoldersSound(t, flights) && r.id == t.nextId
    ensures HeldTracked(t.rows + [r], cutoff, flights)
  {
    forall i | 0 <= i < |flights| && flights[i].Holding?
      ensures Tracks(t.rows + [r], cutoff, flights[i].row)
    {
      assert flights[i] in flights && Tracks(t.rows, cutoff, flights[i].row);
      if HasRow(t.rows, flights[i].row.id) {
        var j :| 0 <= j < |t.rows| && t.rows[j].id == flights[i].row.id;
        assert (t.rows + [r])[j].id == flights[i].row.id;
      }
    }
  }

  lemma InsertKeepsRows(c: Config, rows: seq<Row>, r: Row, fails: seq<R.FailEvent>, cutoff: int)
    requires RowsTimed(c, rows) && R.SumsMirror(rows, fails, cutoff) && r.attempts == 0 && r.expiresAt == r.createdAt + Ms(c.ttl)
    ensures RowsTimed(c, rows + [r]) && R.SumsMirror(rows + [r], fails, cutoff)
  {
    forall key, since | since >= cutoff
      ensures SumSince(rows + [r], key, since) == R.FailsOnRowsSince(fails, key, since)
    {
      CountsAppend(rows, r, key, since);
    }
  }

  // ---------- A call moves on without failing ----------

  /** The call keeps waiting for its verification to end, or no longer does, or never did. */
  predicate NoMore(f: Flight, from: Flight) {
    if f.Checked? || f.Holding? then from.Checked? && f.key == from.key else true
  }

  lemma MoveKeepsTimes(c: Config, load: Load, d: nat, flights: seq<Flight>, begun: seq<int>, fails: seq<R.FailEvent>, i: nat, f: Flight)
    requires |begun| == |flights| && TimesBounded(c, load, d, flights, begun, fails) && i < |flights| && NoMore(f, flights[i])
    ensures TimesBounded(c, load, d, flights[i := f], begun, fails)
  {
    forall key, from
      ensures R.FailsWithin(fails, key, from, Guarded(c, d)) + Total(Pairs(flights[i := f], begun), VerifyingBy(key, from + Guarded(c, d)))
           <= c.maxFailures - 1 + load.verifies
    {
      PairsUpdate(flights, begun, i, f, key, from + Guarded(c, d));
    }
  }

  lemma FinishKeepsSound(c: Config, load: Load, d: nat, t: Trace, out: seq<Row>, i: nat, f: Flight, next: State)
    requires Sound(c, load, d, t) && i < |t.state.flights| && NoMore(f, t.state.flights[i]) && !f.Holding? && Same(out, t.state.table.rows)
    requires next.table.rows == out && next.flights == t.state.flights[i := f] && next.now == t.state.now
    ensures Sound(c, load, d, Trace(next, t.begun, t.fails))
  {
    SameKeepsRows(c, t.state.table.rows, out, t.fails, R.Cutoff(c, t.state.now));
    SameKeepsTracked(t.state.table.rows, out, R.Cutoff(c, t.state.now), t.state.flights);
    MoveKeepsTimes(c, load, d, t.state.flights, t.begun, t.fails, i, f);
  }

  lemma TakeTracks(rows: seq<Row>, nextId: nat, now: int, cutoff: int, k: nat)
    requires Ordered(Table(rows, nextId), now) && k < |rows|
    ensures Tracks(rows, cutoff, rows[k])
  {
    assert forall j :: 0 <= j < |rows| && rows[j].id == rows[k].id ==> j == k;
  }

  lemma TakeKeepsSound(c: Config, load: Load, d: nat, t: Trace, i: nat, k: nat)
    requires Sound(c, load, d, t) && Ordered(t.state.table, t.state.now) && i < |t.state.flights| && t.state.flights[i].Checked?
    requires k < |t.state.table.rows| && IsActive(t.state.table.rows[k], t.state.flights[i].key, t.state.now)
    ensures var f := t.state.flights[i];
            Sound(c, load, d, Trace(Moved(t.state, t.state.table.rows, i, Holding(f.key, f.code, t.state.table.rows[k])), t.begun, t.fails))
  {
    var f := Holding(t.state.flights[i].key, t.state.flights[i].code, t.state.table.rows[k]);
    TakeTracks(t.state.table.rows, t.state.table.nextId, t.state.now, R.Cutoff(c, t.state.now), k);
    MoveKeepsTimes(c, load, d, t.state.flights, t.begun, t.fails, i, f);
  }

  lemma InsertKeepsSound(c: Config, load: Load, d: nat, t: Trace, i: nat, key: Key, generated: string)
    requires Sound(c, load, d, t) && HoldersSound(t.state.table, t.state.flights) && i < |t.state.flights| && t.state.flights[i] == Cleared(key)
    ensures Sound(c, load, d, Trace(Insert(c, t.state, i, key, generated), t.begun, t.fails))
  {
    var r := NewRow(c, t.state.table.nextId, key, generated, t.state.now);
    InsertKeepsRows(c, t.state.table.rows, r, t.fails, R.Cutoff(c, t.state.now));
    InsertKeepsTracked(t.state.table, r, R.Cutoff(c, t.state.now), t.state.flights);
    MoveKeepsTimes(c, load, d, t.state.flights, t.begun, t.fails, i, Done);
  }

  // ---------- A verification fails ----------

  lemma MissKeepsTimes(c: Config, load: Load, d: nat, flights: seq<Flight>, begun: seq<int>, fails: seq<R.FailEvent>, i: nat, now: int)
    requires |begun| == |flights| && TimesBounded(c, load, d, flights, begun, fails)
    requires i < |flights| && flights[i].Holding? && begun[i] <= now
    ensures TimesBounded(c, load, d, flights[i := Done], begun, fails + [FailOf(flights[i], now)])
  {
    R.FailsAppend(fails, FailOf(flights[i], now));
    forall key, from
      ensures R.FailsWithin(fails + [FailOf(flights[i], now)], key, from, Guarded(c, d))
            + Total(Pairs(flights[i := Done], begun), VerifyingBy(key, from + Guarded(c, d)))
           <= c.maxFailures - 1 + load.verifies
    {
      PairsUpdate(flights, begun, i, Done, key, from + Guarded(c, d));
      assert R.FailsWithin(fails, key, from, Guarded(c, d)) + Total(Pairs(flights, begun), VerifyingBy(key, from + Guarded(c, d)))
          <= c.maxFailures - 1 + load.verifies;
    }
  }

  lemma ChargeKeepsSums(rows: seq<Row>, fails: seq<R.FailEvent>, k: nat, f: R.FailEvent, cutoff: int)
    requires R.SumsMirror(rows, fails, cutoff) && k < |rows| && f.key == rows[k].key && f.created == rows[k].createdAt
    ensures R.SumsMirror(rows[k := rows[k].(attempts := rows[k].attempts + 1)], fails + [f], cutoff)
  {
    R.FailsAppend(fails, f);
    var out := rows[k := rows[k].(attempts := rows[k].attempts + 1)];
    forall key, since | since >= cutoff
      ensures SumSince(out, key, since) == R.FailsOnRowsSince(fails + [f], key, since)
    {
      SumIncrement(rows, k, key, since);
    }
  }

  lemma GoneKeepsSums(rows: seq<Row>, fails: seq<R.FailEvent>, f: R.FailEvent, cutoff: int)
    requires R.SumsMirror(rows, fails, cutoff) && f.created < cutoff
    ensures R.SumsMirror(rows, fails + [f], cutoff)
  {
    R.FailsAppend(fails, f);
  }

  lemma MissKeepsRows(c: Config, t: Table, now: int, fails: seq<R.FailEvent>, f: Flight, cutoff: int)
    requires Ordered(t, now) && RowsTimed(c, t.rows) && R.SumsMirror(t.rows, fails, cutoff)
    requires f.Holding? && f.row.key == f.key && Tracks(t.rows, cutoff, f.row)
    ensures RowsTimed(c, IncrementAttempts(t.rows, f.row.id))
    ensures R.SumsMirror(IncrementAttempts(t.rows, f.row.id), fails + [FailOf(f, now)], cutoff)
  {
    if HasRow(t.rows, f.row.id) {
      var k :| 0 <= k < |t.rows| && t.rows[k].id == f.row.id;
      IncrementIsPoint(t, now, k);
      ChargeKeepsSums(t.rows, fails, k, FailOf(f, now), cutoff);
    } else {
      assert IncrementAttempts(t.rows, f.row.id) == t.rows;
      GoneKeepsSums(t.rows, fails, FailOf(f, now), cutoff);
    }
  }

  lemma MissKeepsSound(c: Config, load: Load, d: nat, t: Trace, i: nat)
    requires Sound(c, load, d, t) && Ordered(t.state.table, t.state.now)
    requires i < |t.state.flights| && Misses(c, t.state.flights[i]) && t.state.now - t.begun[i] <= d
    ensures var f := t.state.flights[i];
            Sound(c, load, d, Trace(Moved(t.state, IncrementAttempts(t.state.table.rows, f.row.id), i, Done), t.begun, t.fails + [FailOf(f, t.state.now)]))
  {
    var f, cutoff := t.state.flights[i], R.Cutoff(c, t.state.now);
    MissKeepsRows(c, t.state.table, t.state.now, t.fails, f, cutoff);
    SameKeepsTracked(t.state.table.rows, IncrementAttempts(t.state.table.rows, f.row.id), cutoff, t.state.flights);
    MissKeepsTimes(c, load, d, t.state.flights, t.begun, t.fails, i, t.state.now);
  }

  // ---------- A call begins ----------

  /** The lock check bounds the failures of every interval that has not ended. */
  lemma BeginKeepsTimes(c: Config, load: Load, d: nat, t: Trace, f: Flight)
    requires Sound(c, load, d, t) && Carries(load, t.state.flights + [f]) && c.maxFailures > 0
    requires (f.Checked? && !IsLocked(c, t.state.table, f.key, t.state.now)) || f.Entered?
    ensures TimesBounded(c, load, d, t.state.flights + [f], t.begun + [t.state.now], t.fails)
  {
    var flights, begun, now := t.state.flights + [f], t.begun + [t.state.now], t.state.now;
    forall key, from
      ensures R.FailsWithin(t.fails, key, from, Guarded(c, d)) + Total(Pairs(flights, begun), VerifyingBy(key, from + Guarded(c, d)))
           <= c.maxFailures - 1 + load.verifies
    {
      var until, since := from + Guarded(c, d), now - Ms(c.lockWindow);
      PairsAppend(t.state.flights, t.begun, f, now, key, until);
      if f.Checked? && f.key == key && now <= until {
        PendingVerify(flights, begun, key, until);
        R.RecentFailsOnRecentRows(t.fails, Ms(c.ttl) + d, key, from, Guarded(c, d), since);
        assert SumSince(t.state.table.rows, key, since) == R.FailsOnRowsSince(t.fails, key, since);
      }
    }
  }

  lemma BeginKeepsSound(c: Config, load: Load, d: nat, t: Trace, f: Flight)
    requires f.Checked? || f.Entered?
    requires Sound(c, load, d, t) && Carries(load, Begin(c, t.state, f.key, f).flights) && c.maxFailures > 0
    ensures var next := Begin(c, t.state, f.key, f);
            Sound(c, load, d, Trace(next, if |next.flights| > |t.state.flights| then t.begun + [t.state.now] else t.begun, t.fails))
  {
    if !IsLocked(c, t.state.table, f.key, t.state.now) {
      BeginKeepsTimes(c, load, d, t, f);
    }
  }

  // ---------- Pruning and waiting ----------

  lemma PruneKeepsRows(c: Config, rows: seq<Row>, m: nat, fails: seq<R.FailEvent>, cutoff: int)
    requires m <= |rows| && RowsTimed(c, rows) && R.SumsMirror(rows, fails, cutoff) && forall i :: 0 <= i < m ==> rows[i].createdAt < cutoff
    ensures RowsTimed(c, rows[m..]) && R.SumsMirror(rows[m..], fails, cutoff)
  {
    forall key, since | since >= cutoff
      ensures SumSince(rows[m..], key, since) == R.FailsOnRowsSince(fails, key, since)
    {
      CountsSkipOld(rows, m, key, since);
    }
  }

  lemma SuffixKeepsSound(c: Config, load: Load, d: nat, t: Trace, m: nat)
    requires Sound(c, load, d, t) && m <= |t.state.table.rows|
    requires forall i :: 0 <= i < m ==> t.state.table.rows[i].createdAt < R.Cutoff(c, t.state.now)
    ensures Sound(c, load, d, t.(state := t.state.(table := Table(t.state.table.rows[m..], t.state.table.nextId))))
  {
    PruneKeepsRows(c, t.state.table.rows, m, t.fails, R.Cutoff(c, t.state.now));
    PruneKeepsTracked(t.state.table.rows, m, R.Cutoff(c, t.state.now), t.state.flights);
  }

  lemma PruneDrops(c: Config, t: Table, now: int) returns (m: nat)
    requires Ordered(t, now)
    ensures m <= |t.rows| && PruneStep(c, t, now) == Table(t.rows[m..], t.nextId)
    ensures forall i :: 0 <= i < m ==> t.rows[i].createdAt < R.Cutoff(c, now)
  {
    m := DeleteDropsPrefix(t.rows, R.Cutoff(c, now));
  }

  lemma PruneKeepsSound(c: Config, load: Load, d: nat, t: Trace, next: Trace)
    requires Sound(c, load, d, t) && Ordered(t.state.table, t.state.now)
    requires next == t.(state := t.state.(table := PruneStep(c, t.state.table, t.state.now)))
    ensures Sound(c, load, d, next)
  {
    var m := PruneDrops(c, t.state.table, t.state.now);
    SuffixKeepsSound(c, load, d, t, m);
  }

  lemma PruneKeepsTracked(rows: seq<Row>, m: nat, cutoff: int, flights: seq<Flight>)
    requires m <= |rows| && HeldTracked(rows, cutoff, flights) && forall i :: 0 <= i < m ==> rows[i].createdAt < cutoff
    ensures HeldTracked(rows[m..], cutoff, flights)
  {
    forall i | 0 <= i < |flights| && flights[i].Holding?
      ensures Tracks(rows[m..], cutoff, flights[i].row)
    {
      var r := flights[i].row;
      assert Tracks(rows, cutoff, r);
      if r.createdAt >= cutoff {
        var j :| 0 <= j < |rows| && rows[j].id == r.id;
        assert rows[m..][j - m].id == r.id;
      }
    }
  }

  lemma WaitKeepsSound(c: Config, load: Load, d: nat, t: Trace, until: int)
    requires Sound(c, load, d, t) && t.state.now <= until
    ensures Sound(c, load, d, t.(state := t.state.(now := until)))
  {
    forall i | 0 <= i < |t.state.flights| && t.state.flights[i].Holding?
      ensures Tracks(t.state.table.rows, R.Cutoff(c, until), t.state.flights[i].row)
    {
      assert Tracks(t.state.table.rows, R.Cutoff(c, t.state.now), t.state.flights[i].row);
    }
  }

  // ---------- Every run ----------

  lemma HoldingAdvances(c: Config, load: Load, d: nat, t: Trace, i: nat)
    requires Sound(c, load, d, t) && Ordered(t.state.table, t.state.now)
    requires i < |t.state.flights| && t.state.flights[i].Holding? && t.state.now - t.begun[i] <= d
    ensures Sound(c, load, d, Follow(c, t, Advance(i, "")))
  {
    var f := t.state.flights[i];
    if Misses(c, f) {
      MissKeepsSound(c, load, d, t, i);
    } else {
      FinishKeepsSound(c, load, d, t, MarkConsumed(t.state.table.rows, f.row.id, t.state.now), i, Done, Apply(c, t.state, Advance(i, "")));
    }
  }

  lemma CheckedAdvances(c: Config, load: Load, d: nat, t: Trace, i: nat)
    requires Sound(c, load, d, t) && Ordered(t.state.table, t.state.now)
    requires i < |t.state.flights| && t.state.flights[i].Checked?
    ensures Sound(c, load, d, Follow(c, t, Advance(i, "")))
  {
    var f := t.state.flights[i];
    if Active(t.state.table.rows, f.key, t.state.now).None? {
      FinishKeepsSound(c, load, d, t, t.state.table.rows, i, Done, Apply(c, t.state, Advance(i, "")));
    } else {
      var k := ActiveIndex(t.state.table.rows, f.key, t.state.now);
      TakeKeepsSound(c, load, d, t, i, k);
    }
  }

  lemma IssueAdvances(c: Config, load: Load, d: nat, t: Trace, i: nat, generated: string)
    requires Sound(c, load, d, t) && HoldersSound(t.state.table, t.state.flights)
    requires i < |t.state.flights| && !t.state.flights[i].Checked? && !t.state.flights[i].Holding?
    ensures Sound(c, load, d, Follow(c, t, Advance(i, generated)))
  {
    var next := Apply(c, t.state, Advance(i, generated));
    match t.state.flights[i] {
      case Cleared(key) => InsertKeepsSound(c, load, d, t, i, key, generated);
      case Ready(key) => FinishKeepsSound(c, load, d, t, InvalidateActive(t.state.table.rows, key, t.state.now), i, Cleared(key), next);
      case Done =>
      case Entered(key) =>
        var passed := !RateExceeded(c, t.state.table, key, t.state.now);
        FinishKeepsSound(c, load, d, t, t.state.table.rows, i, if passed then Allowed(key) else Done, next);
      case Allowed(key) =>
        var passed := CooldownLeft(c, t.state.table, key, t.state.now).None?;
        FinishKeepsSound(c, load, d, t, t.state.table.rows, i, if passed then Ready(key) else Done, next);
    }
  }

  lemma StepKeepsSound(c: Config, load: Load, d: nat, t: Trace, step: Step)
    requires ValidConfig(c) && Sound(c, load, d, t) && Ordered(t.state.table, t.state.now) && HoldersSound(t.state.table, t.state.flights)
    requires Carries(load, Apply(c, t.state, step).flights) && InTime(t, step, d)
    ensures Sound(c, load, d, Follow(c, t, step))
  {
    match step {
      case BeginVerify(key, code) => BeginKeepsSound(c, load, d, t, Checked(key, code));
      case BeginIssue(key) => BeginKeepsSound(c, load, d, t, Entered(key));
      case Advance(i, generated) =>
        if i < |t.state.flights| {
          AdvanceKeepsSound(c, load, d, t, i, generated);
        }
      case Prune => PruneKeepsSound(c, load, d, t, Follow(c, t, step));
      case Wait(until) =>
        if until >= t.state.now {
          WaitKeepsSound(c, load, d, t, until);
        }
    }
  }

  lemma AdvanceKeepsSound(c: Config, load: Load, d: nat, t: Trace, i: nat, generated: string)
    requires Sound(c, load, d, t) && Ordered(t.state.table, t.state.now) && HoldersSound(t.state.table, t.state.flights)
    requires i < |t.state.flights| && InTime(t, Advance(i, generated), d)
    ensures Sound(c, load, d, Follow(c, t, Advance(i, generated)))
  {
    if t.state.flights[i].Holding? {
      assert Follow(c, t, Advance(i, generated)) == Follow(c, t, Advance(i, ""));
      HoldingAdvances(c, load, d, t, i);
    } else if t.state.flights[i].Checked? {
      assert Follow(c, t, Advance(i, generated)) == Follow(c, t, Advance(i, ""));
      CheckedAdvances(c, load, d, t, i);
    } else {
      IssueAdvances(c, load, d, t, i, generated);
    }
  }

  lemma StartSound(c: Config, load: Load, d: nat, start: int)
    requires ValidConfig(c)
    ensures Sound(c, load, d, Trace(State(EMPTY, start, [], multiset{}), [], []))
  {
  }

  lemma PrefixOk(c: Config, load: Load, d: nat, start: int, steps: seq<Step>, n: nat)
    requires LoadAtMost(c, start, steps, load) && DurationAtMost(c, start, steps, d) && n <= |steps|
    ensures LoadAtMost(c, start, steps[..n], load) && DurationAtMost(c, start, steps[..n], d)
  {
    forall m | 0 <= m <= n
      ensures steps[..n][..m] == steps[..m]
    {
    }
  }

  lemma {:induction false} RunKeepsSound(c: Config, load: Load, d: nat, start: int, steps: seq<Step>)
    requires ValidConfig(c) && LoadAtMost(c, start, steps, load) && DurationAtMost(c, start, steps, d)
    ensures Sound(c, load, d, Traced(c, start, steps))
  {
    if steps == [] {
      StartSound(c, load, d, start);
    } else {
      var n := |steps| - 1;
      PrefixOk(c, load, d, start, steps, n);
      RunKeepsSound(c, load, d, start, steps[..n]);
      RunKeepsInvariant(c, load, start, steps[..n]);
      TracedIsRun(c, start, steps[..n]);
      assert steps[..|steps|] == steps;
      assert Carries(load, Run(c, start, steps[..|steps|]).flights);
      StepKeepsSound(c, load, d, Traced(c, start, steps[..n]), steps[n]);
    }
  }

  /**
   * Failures by when they happen: with at most so many verifications in flight, none of them
   * longer than `d`, at most the cap and all but one of them more in any interval of the
   * guarded length less `d`, both ends included.
   */
  lemma FailureTimesOverrun(c: Config, load: Load, d: nat, start: int, steps: seq<Step>, key: Key, from: int)
    requires ValidConfig(c) && LoadAtMost(c, start, steps, load) && DurationAtMost(c, start, steps, d)
    ensures R.FailsWithin(Traced(c, start, steps).fails, key, from, R.GuardedLength(c) - d) <= c.maxFailures - 1 + load.verifies
  {
    RunKeepsSound(c, load, d, start, steps);
    TimesAt(c, load, d, Traced(c, start, steps), key, from);
  }

  lemma TimesAt(c: Config, load: Load, d: nat, t: Trace, key: Key, from: int)
    requires Sound(c, load, d, t)
    ensures R.FailsWithin(t.fails, key, from, R.GuardedLength(c) - d) <= c.maxFailures - 1 + load.verifies
  {
    assert R.FailsWithin(t.fails, key, from, Guarded(c, d)) + Total(Pairs(t.state.flights, t.begun), VerifyingBy(key, from + Guarded(c, d)))
        <= c.maxFailures - 1 + load.verifies;
  }
}
