/**
 * The bound of `OtpInterleaving.FailuresOverrun` is attained for every number of overlapping
 * verifications exactly when the codes that the cap takes can be issued within the lock window.
 */
module OtpOverrun {
  import opened Options
  import opened OtpTable
  import opened OtpService
  import opened Totals
  import opened OtpInterleaving
  import opened OtpEmbedding
  import R = OtpRuns
  import S = OtpSchedule
  import T = OtpTightness
  import X = OtpExcess

  /** How many codes must follow the first for their attempts to reach the cap. */
  function FurtherCodes(c: Config): nat
    requires ValidConfig(c)
  {
    (c.maxFailures - 1) / c.maxAttempts
  }

  /** The issue rate lets them follow within the lock window. */
  predicate CapAdmits(c: Config)
    requires ValidConfig(c)
  {
    FurtherCodes(c) / c.maxIssues * c.issueWindow <= c.lockWindow
  }

  /** Some steps with `k` verifications at once put all but one of them more than the cap into the lock window. */
  ghost predicate Attains(c: Config, k: nat) {
    exists start, steps, key ::
      LoadAtMost(c, start, steps, Load(k, 1)) && WindowSum(c, Run(c, start, steps), key) == c.maxFailures - 1 + k
  }

  function WindowSum(c: Config, s: State, key: Key): nat {
    SumSince(s.table.rows, key, s.now - Ms(c.lockWindow))
  }

  // ---------- One failure less than the cap ----------

  lemma {:induction false} SlotFromZero(c: Config, k: nat)
    requires c.maxIssues > 0
    ensures S.SlotAt(c, 0, k) == k / c.maxIssues * Ms(c.issueWindow)
  {
    if k >= c.maxIssues {
      SlotFromZero(c, k - c.maxIssues);
      T.OneWindowLess(k, c.maxIssues, Ms(c.issueWindow));
    } else {
      assert k / c.maxIssues == 0 && 0 * Ms(c.issueWindow) == 0;
    }
  }

  lemma LastSlot(c: Config)
    requires ValidConfig(c) && CapAdmits(c)
    ensures S.SlotAt(c, 0, FurtherCodes(c)) <= Ms(c.lockWindow)
  {
    SlotFromZero(c, FurtherCodes(c));
    X.Seconds(FurtherCodes(c) / c.maxIssues, c.issueWindow);
  }

  /** The next failure reaches the cap, and the newest code still has an attempt left. */
  predicate Poised(c: Config, b: S.Board) {
    && b.born != [] && b.open && b.all + 1 == c.maxFailures && b.attempts < c.maxAttempts
    && 0 <= b.now <= Ms(c.lockWindow) && b.now < b.born[|b.born| - 1] + Ms(c.ttl)
  }

  lemma CanFillFull(c: Config, m: nat)
    requires ValidConfig(c) && m >= 1 && m * c.maxAttempts < c.maxFailures && S.SlotAt(c, 0, m) <= Ms(c.lockWindow)
    ensures S.CanFill(c, 0, m)
  {
    S.SlotsRise(c, 0, m - 1, m);
  }

  lemma FullFits(c: Config, b: S.Board, m: nat)
    requires ValidConfig(c) && m >= 1 && m * c.maxAttempts < c.maxFailures && S.SlotAt(c, 0, m) <= Ms(c.lockWindow)
    requires S.Filled(c, 0, b, m)
    ensures S.CanIssue(c, b, S.SlotAt(c, 0, m)) && S.Load(c, b, S.SlotAt(c, 0, m)) == m * c.maxAttempts
  {
    S.SlotsRise(c, 0, m - 1, m);
    S.SlotFits(c, 0, m, S.SlotAt(c, 0, m));
  }

  lemma PoisedAfter(c: Config, b: S.Board, m: nat, n: nat)
    requires ValidConfig(c) && m >= 1 && m * c.maxAttempts + n + 1 == c.maxFailures && n < c.maxAttempts
    requires S.SlotAt(c, 0, m) <= Ms(c.lockWindow) && S.Filled(c, 0, b, m)
    ensures Poised(c, S.AfterTries(c, S.Reissued(b, S.SlotAt(c, 0, m)), n, S.SlotAt(c, 0, m)))
  {
    S.SlotsRise(c, 0, 0, m);
  }

  /** Full codes in their slots, and one more with the remaining tries. */
  lemma FillUp(c: Config, reach: S.Claim) returns (calls: seq<R.Call>, w: R.World, b: S.Board)
    requires ValidConfig(c) && CapAdmits(c) && S.Closed(c, reach) && reach([], R.World(EMPTY, 0, [], [], []))
    ensures reach(calls, w) && S.Shows(c, w, b) && Poised(c, b)
  {
    var m, n := FurtherCodes(c), (c.maxFailures - 1) % c.maxAttempts;
    var at := S.SlotAt(c, 0, m);
    Division(c.maxFailures - 1, c.maxAttempts);
    LastSlot(c);
    if m == 0 {
      calls, w := S.FirstCode(c, reach, n, 0);
      b := S.FirstBoard(c, n, 0);
    } else {
      CanFillFull(c, m);
      calls, w, b := S.Fill(c, reach, 0, m);
      FullFits(c, b, m);
      PoisedAfter(c, b, m, n);
      calls, w := S.NextCode(c, reach, calls, w, b, at, n);
      b := S.AfterTries(c, S.Reissued(b, at), n, at);
    }
  }

  lemma Division(f: nat, a: nat)
    requires a > 0
    ensures f / a * a + f % a == f && f % a < a && (f / a == 0 ==> f % a == f)
  {
  }

  // ---------- Overlapping verifications ----------

  function Trying(c: Config): Flight {
    Checked(S.PHONE, S.WrongCode(c))
  }

  function Held(c: Config, r: Row): Flight {
    Holding(S.PHONE, S.WrongCode(c), r)
  }

  function Busy(t: Table, now: int, flights: seq<Flight>): State {
    State(t, now, flights, multiset{})
  }

  /** The first `n` of `k` flights have become `to`. */
  function Partly(to: Flight, from: Flight, n: nat, k: nat): seq<Flight>
    requires n <= k
  {
    Many(to, n) + Many(from, k - n)
  }

  lemma OneMore(to: Flight, from: Flight, n: nat, k: nat)
    requires n < k
    ensures Partly(to, from, n, k)[n] == from
    ensures Partly(to, from, n, k)[n := to] == Partly(to, from, n + 1, k)
  {
  }

  lemma Ends(to: Flight, from: Flight, k: nat)
    ensures Partly(to, from, 0, k) == Many(from, k)
    ensures Partly(to, from, k, k) == Many(to, k)
  {
  }

  lemma PartlyLight(load: Load, to: Flight, from: Flight, n: nat, k: nat)
    requires n <= k <= load.verifies && (to.Checked? || to.Holding? || to.Done?) && (from.Checked? || from.Holding? || from.Done?)
    ensures Light(load, Partly(to, from, n, k))
  {
  }

  /** `n` calls pass the lock check together. */
  lemma {:induction false} Gather(c: Config, load: Load, reach: Claim, steps: seq<Step>, t: Table, now: int, n: nat, done: nat, wins: multiset<nat>)
    returns (more: seq<Step>)
    requires Closed(c, load, reach) && n <= load.verifies && !IsLocked(c, t, S.PHONE, now)
    requires reach(steps, Onto(Busy(t, now, []), done, wins))
    ensures reach(more, Onto(Busy(t, now, Many(Trying(c), n)), done, wins))
  {
    if n == 0 {
      more := steps;
      assert Many(Trying(c), 0) == [];
    } else {
      more := Gather(c, load, reach, steps, t, now, n - 1, done, wins);
      var s := Busy(t, now, Many(Trying(c), n - 1));
      assert Many(Trying(c), n - 1) + [Trying(c)] == Many(Trying(c), n);
      PartlyLight(load, Trying(c), Trying(c), n, n);
      Ends(Trying(c), Trying(c), n);
      ExtendOnto(c, load, reach, more, s, BeginVerify(S.PHONE, S.WrongCode(c)), done, wins);
      more := more + [BeginVerify(S.PHONE, S.WrongCode(c))];
    }
  }

  lemma Takes(c: Config, t: Table, now: int, n: nat, k: nat)
    requires n < k && t.rows != [] && Active(t.rows, S.PHONE, now) == Some(S.Newest(t.rows))
    ensures var r := S.Newest(t.rows);
            Apply(c, Busy(t, now, Partly(Held(c, r), Trying(c), n, k)), Advance(n, "")) == Busy(t, now, Partly(Held(c, r), Trying(c), n + 1, k))
  {
    OneMore(Held(c, S.Newest(t.rows)), Trying(c), n, k);
  }

  /** Then `n` of them read the row. */
  lemma {:induction false} ReadAll(c: Config, load: Load, reach: Claim, steps: seq<Step>, t: Table, now: int, n: nat, k: nat, done: nat, wins: multiset<nat>)
    returns (more: seq<Step>)
    requires Closed(c, load, reach) && n <= k <= load.verifies
    requires t.rows != [] && Active(t.rows, S.PHONE, now) == Some(S.Newest(t.rows))
    requires reach(steps, Onto(Busy(t, now, Many(Trying(c), k)), done, wins))
    ensures reach(more, Onto(Busy(t, now, Partly(Held(c, S.Newest(t.rows)), Trying(c), n, k)), done, wins))
    decreases n
  {
    var held := Held(c, S.Newest(t.rows));
    if n == 0 {
      more := steps;
      Ends(held, Trying(c), k);
    } else {
      more := ReadAll(c, load, reach, steps, t, now, n - 1, k, done, wins);
      Takes(c, t, now, n - 1, k);
      PartlyLight(load, held, Trying(c), n, k);
      ExtendOnto(c, load, reach, more, Busy(t, now, Partly(held, Trying(c), n - 1, k)), Advance(n - 1, ""), done, wins);
      more := more + [Advance(done + (n - 1), "")];
    }
  }

  ghost predicate TableShows(c: Config, t: Table, b: S.Board) {
    Ordered(t, b.now) && S.RowsShow(c, t.rows, b) && S.SumsShow(t.rows, b)
  }

  /** The newest row with `n` failures more than `r` was read with. */
  ghost predicate Tried(c: Config, t: Table, b: S.Board, n: nat, r: Row)
    requires b.born != []
  {
    && TableShows(c, t, S.AfterTries(c, b, n, b.now)) && t.rows != [] && S.Newest(t.rows).id == r.id
    && r.attempts < c.maxAttempts && r.codeHash == Digest(S.StoredCode(c))
  }

  function Failed(t: Table): Table
    requires t.rows != []
  {
    Table(R.RowsAfterFail(t.rows, |t.rows| - 1), t.nextId)
  }

  lemma Fails(c: Config, t: Table, now: int, flights: seq<Flight>, i: nat, r: Row)
    requires Ordered(t, now) && t.rows != [] && S.Newest(t.rows).id == r.id && i < |flights| && flights[i] == Held(c, r)
    requires r.attempts < c.maxAttempts && r.codeHash == Digest(S.StoredCode(c))
    ensures Apply(c, Busy(t, now, flights), Advance(i, "")) == Busy(Failed(t), now, flights[i := Done])
  {
    S.WrongIsWrong(c);
    IncrementIsPoint(t, now, |t.rows| - 1);
  }

  lemma FailsShows(c: Config, t: Table, b: S.Board, n: nat, r: Row)
    requires b.born != [] && Tried(c, t, b, n, r)
    ensures Tried(c, Failed(t), b, n + 1, r)
  {
    var tried := S.AfterTries(c, b, n, b.now);
    S.TryShowsRows(c, t, tried, b.now);
    S.TryShowsSums(c, t.rows, tried, b.now);
  }

  /** And then `n` of them fail. */
  lemma {:induction false} FailAll(c: Config, load: Load, reach: Claim, steps: seq<Step>, t: Table, b: S.Board, r: Row, n: nat, k: nat, done: nat, wins: multiset<nat>)
    returns (more: seq<Step>, u: Table)
    requires Closed(c, load, reach) && n <= k <= load.verifies && b.born != [] && Tried(c, t, b, 0, r)
    requires reach(steps, Onto(Busy(t, b.now, Many(Held(c, r), k)), done, wins))
    ensures Tried(c, u, b, n, r) && reach(more, Onto(Busy(u, b.now, Partly(Done, Held(c, r), n, k)), done, wins))
    decreases n
  {
    if n == 0 {
      more, u := steps, t;
      Ends(Done, Held(c, r), k);
    } else {
      more, u := FailAll(c, load, reach, steps, t, b, r, n - 1, k, done, wins);
      more, u := FailOne(c, load, reach, more, u, b, r, n - 1, k, done, wins);
    }
  }

  lemma FailOne(c: Config, load: Load, reach: Claim, steps: seq<Step>, t: Table, b: S.Board, r: Row, n: nat, k: nat, done: nat, wins: multiset<nat>)
    returns (more: seq<Step>, u: Table)
    requires Closed(c, load, reach) && n < k <= load.verifies && b.born != [] && Tried(c, t, b, n, r)
    requires reach(steps, Onto(Busy(t, b.now, Partly(Done, Held(c, r), n, k)), done, wins))
    ensures Tried(c, u, b, n + 1, r) && reach(more, Onto(Busy(u, b.now, Partly(Done, Held(c, r), n + 1, k)), done, wins))
  {
    FailsShows(c, t, b, n, r);
    FailStep(c, t, b, r, n, k);
    more := FailNext(c, load, reach, steps, t, b.now, r, n, k, done, wins);
    u := Failed(t);
  }

  lemma FailStep(c: Config, t: Table, b: S.Board, r: Row, n: nat, k: nat)
    requires n < k && b.born != [] && Tried(c, t, b, n, r)
    ensures Apply(c, Busy(t, b.now, Partly(Done, Held(c, r), n, k)), Advance(n, "")) == Busy(Failed(t), b.now, Partly(Done, Held(c, r), n + 1, k))
  {
    OneMore(Done, Held(c, r), n, k);
    Fails(c, t, b.now, Partly(Done, Held(c, r), n, k), n, r);
  }

  lemma FailNext(c: Config, load: Load, reach: Claim, steps: seq<Step>, t: Table, now: int, r: Row, n: nat, k: nat, done: nat, wins: multiset<nat>)
    returns (more: seq<Step>)
    requires Closed(c, load, reach) && n < k <= load.verifies && t.rows != []
    requires Apply(c, Busy(t, now, Partly(Done, Held(c, r), n, k)), Advance(n, "")) == Busy(Failed(t), now, Partly(Done, Held(c, r), n + 1, k))
    requires reach(steps, Onto(Busy(t, now, Partly(Done, Held(c, r), n, k)), done, wins))
    ensures reach(more, Onto(Busy(Failed(t), now, Partly(Done, Held(c, r), n + 1, k)), done, wins))
  {
    PartlyLight(load, Done, Held(c, r), n + 1, k);
    ExtendOnto(c, load, reach, steps, Busy(t, now, Partly(Done, Held(c, r), n, k)), Advance(n, ""), done, wins);
    more := steps + [Advance(done + n, "")];
  }

  lemma PoisedTable(c: Config, t: Table, b: S.Board)
    requires TableShows(c, t, b) && Poised(c, b)
    ensures !IsLocked(c, t, S.PHONE, b.now) && t.rows != []
    ensures Active(t.rows, S.PHONE, b.now) == Some(S.Newest(t.rows)) && Tried(c, t, b, 0, S.Newest(t.rows))
  {
    S.PassesLock(c, t, b, b.now);
    S.FindsNewest(c, t, b, b.now);
  }

  lemma OverSum(c: Config, u: Table, b: S.Board, k: nat, r: Row)
    requires Poised(c, b) && Tried(c, u, b, k, r)
    ensures SumSince(u.rows, S.PHONE, b.now - Ms(c.lockWindow)) == c.maxFailures - 1 + k
  {
    S.SameSum(u.rows, S.PHONE, 0, b.now - Ms(c.lockWindow));
  }

  /** From one failure less than the cap, `k` verifications that overlap on one code. */
  lemma Overlap(c: Config, load: Load, reach: Claim, steps: seq<Step>, t: Table, b: S.Board, done: nat, wins: multiset<nat>)
    returns (more: seq<Step>, u: Table)
    requires Closed(c, load, reach) && TableShows(c, t, b) && Poised(c, b)
    requires reach(steps, Onto(Busy(t, b.now, []), done, wins))
    ensures reach(more, Onto(Busy(u, b.now, Many(Done, load.verifies)), done, wins))
    ensures SumSince(u.rows, S.PHONE, b.now - Ms(c.lockWindow)) == c.maxFailures - 1 + load.verifies
  {
    var k, r := load.verifies, S.Newest(t.rows);
    PoisedTable(c, t, b);
    more := Gather(c, load, reach, steps, t, b.now, k, done, wins);
    more := ReadAll(c, load, reach, more, t, b.now, k, k, done, wins);
    Ends(Held(c, r), Trying(c), k);
    more, u := FailAll(c, load, reach, more, t, b, r, k, k, done, wins);
    Ends(Done, Held(c, r), k);
    OverSum(c, u, b, k, r);
  }

  lemma AttainedBy(c: Config, k: nat, steps: seq<Step>, s: State)
    requires Reaches(c, 0, Load(k, 1), steps, s) && WindowSum(c, s, S.PHONE) == c.maxFailures - 1 + k
    ensures Attains(c, k)
  {
    assert LoadAtMost(c, 0, steps, Load(k, 1)) && WindowSum(c, Run(c, 0, steps), S.PHONE) == c.maxFailures - 1 + k;
  }

  lemma OverlapFrom(c: Config, load: Load, reach: Claim, w: R.World, b: S.Board) returns (steps: seq<Step>, s: State)
    requires Closed(c, load, reach) && Embeds(reach, w) && S.Shows(c, w, b) && Poised(c, b)
    ensures reach(steps, s) && WindowSum(c, s, S.PHONE) == c.maxFailures - 1 + load.verifies
  {
    var found: seq<Step>, n: nat, wins: multiset<nat> :| reach(found, Rest(w.table, w.now, n, wins));
    assert Onto(Busy(w.table, b.now, []), n, wins) == Rest(w.table, w.now, n, wins);
    var u: Table;
    steps, u := Overlap(c, load, reach, found, w.table, b, n, wins);
    s := Onto(Busy(u, b.now, Many(Done, load.verifies)), n, wins);
  }

  lemma OverlapRun(c: Config, k: nat)
    requires ValidConfig(c) && CapAdmits(c) && k >= 1
    ensures Attains(c, k)
  {
    var reach := ReachesClosed(c, 0, Load(k, 1));
    var w, b := FillSteps(c, Load(k, 1), reach);
    var steps, s := OverlapFrom(c, Load(k, 1), reach, w, b);
    AttainedBy(c, k, steps, s);
  }

  lemma FillSteps(c: Config, load: Load, reach: Claim) returns (w: R.World, b: S.Board)
    requires ValidConfig(c) && CapAdmits(c) && Closed(c, load, reach) && load.verifies >= 1 && load.issues >= 1
    requires reach([], Rest(EMPTY, 0, 0, multiset{}))
    ensures Embeds(reach, w) && S.Shows(c, w, b) && Poised(c, b)
  {
    var atomic: S.Claim := (calls, w) => Embeds(reach, w);
    forall calls: seq<R.Call>, w: R.World, call: R.Call | atomic(calls, w) && w.now <= call.at
      ensures atomic(calls + [call], R.Apply(c, w, call))
    {
      EmbedsOn(c, load, reach, w, call);
    }
    assert Embeds(reach, R.World(EMPTY, 0, [], [], []));
    var calls: seq<R.Call>;
    calls, w, b := FillUp(c, atomic);
  }

  // ---------- What one verification at a time needs ----------

  /** The rows of the table as issues. */
  function Events(rows: seq<Row>): seq<R.IssueEvent> {
    seq(|rows|, i requires 0 <= i < |rows| => R.IssueEvent(rows[i].key, rows[i].createdAt, rows[i].id))
  }

  lemma {:induction false} CountIsAfter(rows: seq<Row>, key: Key, since: int)
    ensures CountSince(rows, key, since) == R.IssuesAfter(Events(rows), key, since)
  {
    if rows != [] {
      var n := |rows| - 1;
      assert Events(rows)[..n] == Events(rows[..n]);
      CountIsAfter(rows[..n], key, since);
    }
  }

  lemma {:induction false} WithinSuffix(issues: seq<R.IssueEvent>, m: nat, key: Key, after: int, length: int)
    requires m <= |issues|
    ensures R.IssuesWithin(issues[m..], key, after, length) <= R.IssuesWithin(issues, key, after, length)
  {
    if m < |issues| {
      assert issues[m..][..|issues[m..]| - 1] == issues[..|issues| - 1][m..];
      WithinSuffix(issues[..|issues| - 1], m, key, after, length);
    }
  }

  lemma InsertKeepsSpacing(c: Config, load: Load, s: State, rows: seq<Row>, r: Row)
    requires Invariant(c, load, s) && load.issues == 1 && s.table.rows == rows + [r] && r.createdAt == s.now
    requires R.IssuesCapped(c, Events(rows))
    ensures R.IssuesCapped(c, Events(rows + [r]))
  {
    var e := R.IssueEvent(r.key, r.createdAt, r.id);
    var length := Ms(c.issueWindow);
    assert Events(rows + [r]) == Events(rows) + [e];
    R.IssuesAppend(Events(rows), e);
    forall key, after
      ensures R.IssuesWithin(Events(rows + [r]), key, after, length) <= c.maxIssues
    {
      WindowsBounded(c, load, s, key);
      CountIsAfter(rows + [r], key, s.now - length);
      if after < s.now <= after + length {
        R.IssuesWithinAfter(Events(rows + [r]), key, after, length, s.now - length);
      }
    }
  }

  lemma SuffixKeepsSpacing(c: Config, rows: seq<Row>, m: nat)
    requires m <= |rows| && R.IssuesCapped(c, Events(rows))
    ensures R.IssuesCapped(c, Events(rows[m..]))
  {
    assert Events(rows[m..]) == Events(rows)[m..];
    forall key, after
      ensures R.IssuesWithin(Events(rows[m..]), key, after, Ms(c.issueWindow)) <= c.maxIssues
    {
      WithinSuffix(Events(rows), m, key, after, Ms(c.issueWindow));
    }
  }

  lemma AdvanceRows(c: Config, s: State, i: nat, generated: string)
    requires i < |s.flights|
    ensures var out := AdvanceFlight(c, s, i, generated).table.rows;
            if s.flights[i].Cleared? then out == s.table.rows + [NewRow(c, s.table.nextId, s.flights[i].key, generated, s.now)]
            else Events(out) == Events(s.table.rows)
  {
  }

  lemma StepKeepsSpacing(c: Config, load: Load, s: State, step: Step)
    requires Invariant(c, load, s) && Invariant(c, load, Apply(c, s, step)) && load.issues == 1
    requires R.IssuesCapped(c, Events(s.table.rows))
    ensures R.IssuesCapped(c, Events(Apply(c, s, step).table.rows))
  {
    match step {
      case Advance(i, generated) =>
        if i < |s.flights| {
          AdvanceRows(c, s, i, generated);
          if s.flights[i].Cleared? {
            InsertKeepsSpacing(c, load, Apply(c, s, step), s.table.rows, NewRow(c, s.table.nextId, s.flights[i].key, generated, s.now));
          }
        }
      case Prune =>
        var m := PruneIsSuffix(c, s.table, s.now);
        SuffixKeepsSpacing(c, s.table.rows, m);
      case _ =>
    }
  }

  lemma {:induction false} RunKeepsSpacing(c: Config, load: Load, start: int, steps: seq<Step>)
    requires ValidConfig(c) && LoadAtMost(c, start, steps, load) && load.issues == 1
    ensures R.IssuesCapped(c, Events(Run(c, start, steps).table.rows))
  {
    if steps != [] {
      var n := |steps| - 1;
      LoadOfPrefix(c, load, start, steps, n);
      RunKeepsSpacing(c, load, start, steps[..n]);
      RunKeepsInvariant(c, load, start, steps[..n]);
      RunKeepsInvariant(c, load, start, steps);
      StepKeepsSpacing(c, load, Run(c, start, steps[..n]), steps[n]);
    }
  }

  lemma LoadOfPrefix(c: Config, load: Load, start: int, steps: seq<Step>, n: nat)
    requires LoadAtMost(c, start, steps, load) && n <= |steps|
    ensures LoadAtMost(c, start, steps[..n], load)
  {
    forall m | 0 <= m <= n
      ensures Carries(load, Run(c, start, steps[..n][..m]).flights)
    {
      assert steps[..n][..m] == steps[..m];
    }
  }

  predicate InWindow(key: Key, since: int, now: int, e: R.IssueEvent) {
    e.key == key && since <= e.at <= now
  }

  /** The window sum is at most the cap of attempts for each of its rows. */
  lemma {:induction false} SumByRows(c: Config, rows: seq<Row>, key: Key, since: int, now: int)
    requires forall i :: 0 <= i < |rows| ==> rows[i].attempts <= c.maxAttempts && rows[i].createdAt <= now
    ensures SumSince(rows, key, since) <= c.maxAttempts * Count(Events(rows), (e: R.IssueEvent) => InWindow(key, since, now, e))
  {
    if rows != [] {
      var n := |rows| - 1;
      var p := (e: R.IssueEvent) => InWindow(key, since, now, e);
      assert Events(rows)[..n] == Events(rows[..n]);
      SumByRows(c, rows[..n], key, since, now);
      assert c.maxAttempts * (Count(Events(rows[..n]), p) + 1) == c.maxAttempts * Count(Events(rows[..n]), p) + c.maxAttempts;
    }
  }

  lemma FewRows(f: nat, a: nat, size: nat, count: nat)
    requires f > 0 && a > 0 && size > 0 && count <= (f - 1) / a / size * size
    ensures a * count < f
  {
    Division(f - 1, a);
    Division((f - 1) / a, size);
    var q := (f - 1) / a;
    assert count <= q;
    assert a * q == a * count + a * (q - count);
  }

  lemma RoomInWindow(c: Config, rows: seq<Row>, key: Key, now: int)
    requires ValidConfig(c) && R.IssuesCapped(c, Events(rows))
    requires forall i :: 0 <= i < |rows| ==> rows[i].attempts <= c.maxAttempts && rows[i].createdAt <= now
    requires SumSince(rows, key, now - Ms(c.lockWindow)) >= c.maxFailures
    ensures CapAdmits(c)
  {
    var q, since := FurtherCodes(c) / c.maxIssues, now - Ms(c.lockWindow);
    var p := (e: R.IssueEvent) => InWindow(key, since, now, e);
    X.Seconds(q, c.issueWindow);
    if !CapAdmits(c) {
      X.WithinWindows(c, Events(rows), key, since, now, p, q);
      SumByRows(c, rows, key, since, now);
      FewRows(c.maxFailures, c.maxAttempts, c.maxIssues, Count(Events(rows), p));
      assert false;
    }
  }

  lemma RunNeedsRoom(c: Config, start: int, steps: seq<Step>, key: Key)
    requires ValidConfig(c) && LoadAtMost(c, start, steps, Load(1, 1)) && WindowSum(c, Run(c, start, steps), key) >= c.maxFailures
    ensures CapAdmits(c)
  {
    RunKeepsSpacing(c, Load(1, 1), start, steps);
    RunKeepsInvariant(c, Load(1, 1), start, steps);
    StateNeedsRoom(c, Run(c, start, steps), key);
  }

  lemma StateNeedsRoom(c: Config, s: State, key: Key)
    requires ValidConfig(c) && Invariant(c, Load(1, 1), s) && R.IssuesCapped(c, Events(s.table.rows))
    requires WindowSum(c, s, key) >= c.maxFailures
    ensures CapAdmits(c)
  {
    CodesBounded(c, Load(1, 1), s, 0);
    RoomInWindow(c, s.table.rows, key, s.now);
  }

  lemma CapNeedsRoom(c: Config)
    requires ValidConfig(c) && Attains(c, 1)
    ensures CapAdmits(c)
  {
    var start, steps, key :| LoadAtMost(c, start, steps, Load(1, 1)) && WindowSum(c, Run(c, start, steps), key) == c.maxFailures - 1 + 1;
    RunNeedsRoom(c, start, steps, key);
  }

  // ---------- The theorem ----------

  /**
   * However many verifications overlap, some run attains the overrun exactly, if and only if
   * the codes that one verification at a time would take to reach the cap fit the lock window.
   */
  lemma OverrunAttainedIff(c: Config)
    requires ValidConfig(c)
    ensures (forall k: nat :: k >= 1 ==> Attains(c, k)) <==> CapAdmits(c)
  {
    if CapAdmits(c) {
      forall k: nat | k >= 1
        ensures Attains(c, k)
      {
        OverlapRun(c, k);
      }
    }
    if Attains(c, 1) {
      CapNeedsRoom(c);
    }
  }

  /** The settings of the repository's environment files admit it. */
  lemma ShippedAttains(maxIssues: nat, fixedCode: Option<string>, k: nat)
    requires (maxIssues == 3 || maxIssues == 10) && k >= 1
    ensures Attains(T.Shipped(maxIssues, fixedCode), k)
  {
    assert FurtherCodes(T.Shipped(maxIssues, fixedCode)) == 5;
    OverlapRun(T.Shipped(maxIssues, fixedCode), k);
  }
}
