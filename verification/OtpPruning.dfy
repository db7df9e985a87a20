/**
 * Nightly pruning and the outcomes callers see: which settings make it invisible.
 */
module OtpPruning {
  import opened Options
  import opened OtpTable
  import opened OtpService
  import opened OtpRuns

  /** What a call returns; pruning returns nothing. */
  function Returned(c: Config, t: Table, call: Call): seq<Outcome> {
    match call.op
    case Issue(key, generated) => [IssueStep(c, t, key, generated, call.at).1]
    case Verify(key, code) => [VerifyStep(c, t, key, code, call.at).1]
    case Prune => []
  }

  /** The outcomes of a run, in order. */
  function Outcomes(c: Config, start: int, calls: seq<Call>): seq<Outcome> {
    if calls == [] then []
    else
      var n := |calls| - 1;
      Outcomes(c, start, calls[..n]) + Returned(c, Run(c, start, calls[..n]).table, calls[n])
  }

  /** The same calls with no pruning between them. */
  function WithoutPrunes(calls: seq<Call>): seq<Call> {
    if calls == [] then []
    else
      var n := |calls| - 1;
      WithoutPrunes(calls[..n]) + if calls[n].op.Prune? then [] else [calls[n]]
  }

  lemma {:induction false} WithoutPrunesKeepsSome(calls: seq<Call>)
    ensures forall call :: call in WithoutPrunes(calls) ==> call in calls
  {
    if calls != [] {
      WithoutPrunesKeepsSome(calls[..|calls| - 1]);
    }
  }

  lemma {:induction false} WithoutPrunesIsChronological(start: int, calls: seq<Call>)
    requires Chronological(start, calls)
    ensures Chronological(start, WithoutPrunes(calls))
  {
    if calls != [] {
      var n := |calls| - 1;
      WithoutPrunesIsChronological(start, calls[..n]);
      WithoutPrunesKeepsSome(calls[..n]);
      ChronologicalOn(start, WithoutPrunes(calls[..n]), calls[n]);
    }
  }

  lemma ChronologicalOn(start: int, calls: seq<Call>, last: Call)
    requires Chronological(start, calls) && start <= last.at && forall call :: call in calls ==> call.at <= last.at
    ensures Chronological(start, calls + [last])
  {
  }

  /** `kept` is `full` without its first `m` rows, all of them older than the retention limit. */
  ghost predicate Trimmed(c: Config, full: Table, kept: Table, m: nat, now: int) {
    && m <= |full.rows| && kept == Table(full.rows[m..], full.nextId)
    && forall i :: 0 <= i < m ==> full.rows[i].createdAt < Cutoff(c, now)
  }

  /** Codes and cooldowns do not outlive the retention limit. */
  predicate RetentionCovers(c: Config) {
    c.ttl <= Retention(c) && c.cooldown <= Retention(c)
  }

  // ---------- Queries do not see trimmed rows ----------

  lemma SameChecks(c: Config, full: Table, kept: Table, m: nat, key: Key, now: int)
    requires Trimmed(c, full, kept, m, now)
    ensures IsLocked(c, kept, key, now) == IsLocked(c, full, key, now)
    ensures RateExceeded(c, kept, key, now) == RateExceeded(c, full, key, now)
  {
    CountsSkipOld(full.rows, m, key, now - Ms(c.lockWindow));
    CountsSkipOld(full.rows, m, key, now - Ms(c.issueWindow));
  }

  lemma {:induction false} ActiveSkipsInactive(rows: seq<Row>, m: nat, key: Key, now: int)
    requires m <= |rows|
    requires forall i :: 0 <= i < m ==> !IsActive(rows[i], key, now)
    ensures Active(rows[m..], key, now) == Active(rows, key, now)
  {
    var n := |rows| - 1;
    if m < |rows| {
      assert rows[m..][..|rows[m..]| - 1] == rows[..n][m..];
      ActiveSkipsInactive(rows[..n], m, key, now);
    } else if rows != [] {
      assert rows[m..] == [] && rows[..n][n..] == [];
      ActiveSkipsInactive(rows[..n], n, key, now);
    }
  }

  lemma SameActive(c: Config, full: Table, kept: Table, m: nat, key: Key, now: int)
    requires RetentionCovers(c) && RowsSound(c, full, now)
    requires Trimmed(c, full, kept, m, now)
    ensures Active(kept.rows, key, now) == Active(full.rows, key, now)
  {
    ActiveSkipsInactive(full.rows, m, key, now);
  }

  lemma {:induction false} LatestInSuffix(rows: seq<Row>, m: nat, key: Key)
    requires m <= |rows|
    ensures Latest(rows[m..], key) == Latest(rows, key) || Latest(rows[m..], key).None?
    ensures Latest(rows[m..], key).None? && Latest(rows, key).Some? ==> Latest(rows, key).value in rows[..m]
  {
    var n := |rows| - 1;
    if m < |rows| {
      assert rows[m..][..|rows[m..]| - 1] == rows[..n][m..];
      assert rows[..n][..m] == rows[..m];
      LatestInSuffix(rows[..n], m, key);
    } else {
      assert rows[m..] == [] && rows[..m] == rows;
    }
  }

  lemma SameCooldown(c: Config, full: Table, kept: Table, m: nat, key: Key, now: int)
    requires RetentionCovers(c)
    requires Trimmed(c, full, kept, m, now)
    ensures CooldownLeft(c, kept, key, now) == CooldownLeft(c, full, key, now)
  {
    LatestInSuffix(full.rows, m, key);
  }

  // ---------- Each call ----------

  lemma IssueKeepsTrimmed(c: Config, full: Table, kept: Table, m: nat, key: Key, generated: string, now: int)
    requires RetentionCovers(c)
    requires Trimmed(c, full, kept, m, now)
    ensures IssueStep(c, kept, key, generated, now).1 == IssueStep(c, full, key, generated, now).1
    ensures Trimmed(c, IssueStep(c, full, key, generated, now).0, IssueStep(c, kept, key, generated, now).0, m, now)
  {
    SameChecks(c, full, kept, m, key, now);
    SameCooldown(c, full, kept, m, key, now);
    var row := NewRow(c, full.nextId, key, generated, now);
    var a, b := InvalidateActive(full.rows, key, now), InvalidateActive(kept.rows, key, now);
    assert (a + [row])[m..] == b + [row];
  }

  lemma UpdatesKeepTrimmed(c: Config, full: Table, kept: Table, m: nat, id: nat, now: int)
    requires Trimmed(c, full, kept, m, now)
    ensures Trimmed(c, Table(MarkConsumed(full.rows, id, now), full.nextId), Table(MarkConsumed(kept.rows, id, now), kept.nextId), m, now)
    ensures Trimmed(c, Table(IncrementAttempts(full.rows, id), full.nextId), Table(IncrementAttempts(kept.rows, id), kept.nextId), m, now)
  {
    assert MarkConsumed(full.rows, id, now)[m..] == MarkConsumed(kept.rows, id, now);
    assert IncrementAttempts(full.rows, id)[m..] == IncrementAttempts(kept.rows, id);
  }

  lemma VerifyAlike(c: Config, full: Table, kept: Table, m: nat, locked: bool, active: Option<Row>, code: string, now: int)
    requires Trimmed(c, full, kept, m, now)
    ensures VerifyAgainst(c, kept, locked, active, code, now).1 == VerifyAgainst(c, full, locked, active, code, now).1
    ensures Trimmed(c, VerifyAgainst(c, full, locked, active, code, now).0, VerifyAgainst(c, kept, locked, active, code, now).0, m, now)
  {
    if active.Some? {
      UpdatesKeepTrimmed(c, full, kept, m, active.value.id, now);
    }
  }

  lemma VerifyKeepsTrimmed(c: Config, full: Table, kept: Table, m: nat, key: Key, code: string, now: int)
    requires RetentionCovers(c) && RowsSound(c, full, now)
    requires Trimmed(c, full, kept, m, now)
    ensures VerifyStep(c, kept, key, code, now).1 == VerifyStep(c, full, key, code, now).1
    ensures Trimmed(c, VerifyStep(c, full, key, code, now).0, VerifyStep(c, kept, key, code, now).0, m, now)
  {
    SameChecks(c, full, kept, m, key, now);
    SameActive(c, full, kept, m, key, now);
    VerifyAlike(c, full, kept, m, IsLocked(c, full, key, now), Active(full.rows, key, now), code, now);
  }

  lemma PruneKeepsTrimmed(c: Config, full: Table, kept: Table, m: nat, now: int) returns (m': nat)
    requires RowsSound(c, kept, now)
    requires Trimmed(c, full, kept, m, now)
    ensures Trimmed(c, full, PruneStep(c, kept, now), m', now)
  {
    var k := PruneIsSuffix(c, kept, now);
    m' := m + k;
    assert kept.rows[k..] == full.rows[m'..];
    forall i | 0 <= i < m'
      ensures full.rows[i].createdAt < Cutoff(c, now)
    {
      if i >= m {
        assert full.rows[i] == kept.rows[i - m];
      }
    }
  }

  /** One call on both tables: the same outcome, and still only old rows missing. */
  lemma CallKeepsTrimmed(c: Config, full: World, kept: World, m: nat, call: Call) returns (m': nat)
    requires RetentionCovers(c) && Invariant(c, full) && Invariant(c, kept)
    requires full.now <= call.at && kept.now <= call.at
    requires Trimmed(c, full.table, kept.table, m, kept.now)
    ensures Returned(c, kept.table, call) == Returned(c, full.table, call)
    ensures Trimmed(c, if call.op.Prune? then full.table else Apply(c, full, call).table, Apply(c, kept, call).table, m', call.at)
  {
    Later(c, full, call.at);
    Later(c, kept, call.at);
    assert Trimmed(c, full.table, kept.table, m, call.at);
    m' := m;
    match call.op {
      case Issue(key, generated) => IssueKeepsTrimmed(c, full.table, kept.table, m, key, generated, call.at);
      case Verify(key, code) => VerifyKeepsTrimmed(c, full.table, kept.table, m, key, code, call.at);
      case Prune => m' := PruneKeepsTrimmed(c, full.table, kept.table, m, call.at);
    }
  }

  // ---------- Whole runs ----------

  lemma LastCall(c: Config, start: int, calls: seq<Call>, last: Call)
    ensures Run(c, start, calls + [last]) == Apply(c, Run(c, start, calls), last)
    ensures Outcomes(c, start, calls + [last]) == Outcomes(c, start, calls) + Returned(c, Run(c, start, calls).table, last)
    ensures WithoutPrunes(calls + [last]) == if last.op.Prune? then WithoutPrunes(calls) else WithoutPrunes(calls) + [last]
  {
    RunExtends(c, start, calls, last);
    assert (calls + [last])[..|calls|] == calls;
  }

  lemma RunInvariants(c: Config, start: int, calls: seq<Call>)
    requires Chronological(start, calls)
    ensures Invariant(c, Run(c, start, calls)) && Invariant(c, Run(c, start, WithoutPrunes(calls)))
    ensures forall call :: call in calls ==> start <= call.at
  {
    RunKeepsInvariant(c, start, calls);
    WithoutPrunesIsChronological(start, calls);
    RunKeepsInvariant(c, start, WithoutPrunes(calls));
  }

  lemma NowAfter(c: Config, w: World, call: Call)
    ensures Apply(c, w, call).now == call.at
  {
  }

  lemma BothExtend(c: Config, start: int, calls: seq<Call>, last: Call)
    ensures var full := Run(c, start, WithoutPrunes(calls));
            && Run(c, start, WithoutPrunes(calls + [last])) == (if last.op.Prune? then full else Apply(c, full, last))
            && Outcomes(c, start, WithoutPrunes(calls + [last])) == Outcomes(c, start, WithoutPrunes(calls)) + Returned(c, full.table, last)
    ensures var kept := Run(c, start, calls);
            && Run(c, start, calls + [last]) == Apply(c, kept, last)
            && Outcomes(c, start, calls + [last]) == Outcomes(c, start, calls) + Returned(c, kept.table, last)
  {
    LastCall(c, start, calls, last);
    LastCall(c, start, WithoutPrunes(calls), last);
  }

  /** Extending both runs by one call keeps them alike. */
  lemma ExtendTrimmed(c: Config, start: int, calls: seq<Call>, last: Call, m: nat) returns (m': nat)
    requires RetentionCovers(c)
    requires var full, kept := Run(c, start, WithoutPrunes(calls)), Run(c, start, calls);
             && Invariant(c, full) && Invariant(c, kept) && full.now <= kept.now <= last.at
             && Trimmed(c, full.table, kept.table, m, kept.now)
    requires Outcomes(c, start, calls) == Outcomes(c, start, WithoutPrunes(calls))
    ensures Outcomes(c, start, calls + [last]) == Outcomes(c, start, WithoutPrunes(calls + [last]))
    ensures Trimmed(c, Run(c, start, WithoutPrunes(calls + [last])).table, Run(c, start, calls + [last]).table, m', last.at)
    ensures Run(c, start, WithoutPrunes(calls + [last])).now <= Run(c, start, calls + [last]).now == last.at
  {
    var full, kept := Run(c, start, WithoutPrunes(calls)), Run(c, start, calls);
    BothExtend(c, start, calls, last);
    m' := CallKeepsTrimmed(c, full, kept, m, last);
    NowAfter(c, full, last);
    NowAfter(c, kept, last);
  }

  /** Both runs so far return the same outcomes, and pruning only lost old rows. */
  ghost predicate Alike(c: Config, start: int, calls: seq<Call>, m: nat) {
    var full, kept := Run(c, start, WithoutPrunes(calls)), Run(c, start, calls);
    && full.now <= kept.now
    && Trimmed(c, full.table, kept.table, m, kept.now)
    && Outcomes(c, start, calls) == Outcomes(c, start, WithoutPrunes(calls))
  }

  lemma ExtendAlike(c: Config, start: int, calls: seq<Call>, last: Call, m: nat) returns (m': nat)
    requires RetentionCovers(c) && Chronological(start, calls + [last])
    requires Alike(c, start, calls, m)
    ensures Alike(c, start, calls + [last], m')
  {
    assert (calls + [last])[..|calls|] == calls;
    assert Chronological(start, calls);
    RunInvariants(c, start, calls);
    ClockBefore(c, start, calls, last);
    m' := ExtendTrimmed(c, start, calls, last, m);
  }

  lemma ClockBefore(c: Config, start: int, calls: seq<Call>, last: Call)
    requires Chronological(start, calls + [last])
    ensures Run(c, start, calls).now <= last.at
  {
    assert (calls + [last])[..|calls|] == calls;
    assert Chronological(start, calls);
    RunKeepsInvariant(c, start, calls);
    assert (calls + [last])[|calls|] == last;
    if calls != [] {
      assert (calls + [last])[|calls| - 1] == calls[|calls| - 1];
    }
  }

  lemma {:induction false} RunsStayAlike(c: Config, start: int, calls: seq<Call>) returns (m: nat)
    requires RetentionCovers(c) && Chronological(start, calls)
    ensures Alike(c, start, calls, m)
  {
    m := 0;
    if calls != [] {
      var n := |calls| - 1;
      assert calls == calls[..n] + [calls[n]];
      m := RunsStayAlike(c, start, calls[..n]);
      m := ExtendAlike(c, start, calls[..n], calls[n], m);
    }
  }

  /** No run can tell whether pruning happened. */
  ghost predicate PruningInvisible(c: Config) {
    forall start, calls :: Chronological(start, calls) ==> Outcomes(c, start, calls) == Outcomes(c, start, WithoutPrunes(calls))
  }

  /**
   * Pruning is invisible to every run exactly when neither the code lifetime nor the resend
   * cooldown exceeds the longer of the two counting windows.
   */
  lemma PruningInvisibleIff(c: Config)
    requires ValidConfig(c)
    ensures PruningInvisible(c) <==> RetentionCovers(c)
  {
    if RetentionCovers(c) {
      forall start, calls | Chronological(start, calls)
        ensures Outcomes(c, start, calls) == Outcomes(c, start, WithoutPrunes(calls))
      {
        var _ := RunsStayAlike(c, start, calls);
      }
    } else {
      var last := if c.ttl > Retention(c) then Verify(WITNESS, Stored(c)) else Issue(WITNESS, "");
      var calls := PrunedLate(c, last);
      PruningShows(c, last);
      assert Chronological(0, calls);
    }
  }

  // ---------- When pruning shows ----------

  const WITNESS := Key("", UserLogin)

  /** The code that an issue generating the empty string stores. */
  function Stored(c: Config): string {
    if c.fixedCode.Some? then c.fixedCode.value else ""
  }

  /** An issue, a prune just past the retention limit, and one more call. */
  function PrunedLate(c: Config, last: Op): seq<Call> {
    var late := Ms(Retention(c)) + 1;
    [Call(Issue(WITNESS, ""), 0), Call(Prune, late), Call(last, late)]
  }

  lemma FirstIssue(c: Config)
    requires ValidConfig(c)
    ensures IssueStep(c, EMPTY, WITNESS, "", 0) == (Table([NewRow(c, 1, WITNESS, "", 0)], 2), Issued(Ms(c.ttl)))
  {
    assert InvalidateActive([], WITNESS, 0) + [NewRow(c, 1, WITNESS, "", 0)] == [NewRow(c, 1, WITNESS, "", 0)];
  }

  lemma OutcomesOfTwo(c: Config, a: Call, b: Call)
    ensures Outcomes(c, 0, [a, b]) == Returned(c, EMPTY, a) + Returned(c, Apply(c, World(EMPTY, 0, [], [], []), a).table, b)
  {
    assert [a, b][..1] == [a] && [a][..0] == [];
    assert Outcomes(c, 0, [a]) == Returned(c, EMPTY, a);
    assert Run(c, 0, [a]) == Apply(c, World(EMPTY, 0, [], [], []), a);
  }

  lemma OutcomesOfThree(c: Config, a: Call, b: Call, last: Call)
    ensures Outcomes(c, 0, [a, b, last])
         == Outcomes(c, 0, [a, b]) + Returned(c, Apply(c, Apply(c, World(EMPTY, 0, [], [], []), a), b).table, last)
  {
    assert [a, b, last][..2] == [a, b] && [a, b][..1] == [a] && [a][..0] == [];
    assert Run(c, 0, [a]) == Apply(c, World(EMPTY, 0, [], [], []), a);
    assert Run(c, 0, [a, b]) == Apply(c, Run(c, 0, [a]), b);
  }

  lemma PrunesOfThree(a: Call, b: Call, last: Call)
    requires !a.op.Prune? && b.op.Prune? && !last.op.Prune?
    ensures WithoutPrunes([a, b, last]) == [a, last]
  {
    assert [a, b, last][..2] == [a, b] && [a, b][..1] == [a] && [a][..0] == [];
    assert WithoutPrunes([a]) == [a];
    assert WithoutPrunes([a, b]) == [a];
  }

  lemma LateCall(c: Config, last: Op)
    requires ValidConfig(c) && !RetentionCovers(c)
    requires last == if c.ttl > Retention(c) then Verify(WITNESS, Stored(c)) else Issue(WITNESS, "")
    ensures var late := Call(last, Ms(Retention(c)) + 1);
            Returned(c, Table([NewRow(c, 1, WITNESS, "", 0)], 2), late) != Returned(c, Table([], 2), late)
  {
    var row := NewRow(c, 1, WITNESS, "", 0);
    assert [row][..0] == [];
    assert InvalidateActive([], WITNESS, Ms(Retention(c)) + 1) == [];
  }

  /** Past the retention limit, an unexpired code or a running cooldown is lost to pruning. */
  lemma PruningShows(c: Config, last: Op)
    requires ValidConfig(c) && !RetentionCovers(c)
    requires last == if c.ttl > Retention(c) then Verify(WITNESS, Stored(c)) else Issue(WITNESS, "")
    ensures Outcomes(c, 0, PrunedLate(c, last)) != Outcomes(c, 0, WithoutPrunes(PrunedLate(c, last)))
  {
    var calls := PrunedLate(c, last);
    var row := NewRow(c, 1, WITNESS, "", 0);
    FirstIssue(c);
    LateCall(c, last);
    PrunesOfThree(calls[0], calls[1], calls[2]);
    OutcomesOfTwo(c, calls[0], calls[2]);
    OutcomesOfTwo(c, calls[0], calls[1]);
    OutcomesOfThree(c, calls[0], calls[1], calls[2]);
    PruneOfOne(row, 1);
    DifferentTails([Issued(Ms(c.ttl))], Returned(c, Table([], 2), calls[2]), Returned(c, Table([row], 2), calls[2]));
  }

  lemma PruneOfOne(row: Row, cutoff: int)
    requires row.createdAt < cutoff
    ensures DeleteBefore([row], cutoff) == []
  {
    assert [row][1..] == [];
  }

  lemma DifferentTails(p: seq<Outcome>, x: seq<Outcome>, y: seq<Outcome>)
    requires x != y
    ensures p + x != p + y
    ensures p + [] + x != p + y
  {
    assert (p + x)[|p|..] == x && (p + y)[|p|..] == y && p + [] == p;
  }
}
