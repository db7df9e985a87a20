/**
 * Building runs of one phone's calls: a board keeps what the checks of the next call look at,
 * and each step says when a call passes and how the board changes.
 */
module OtpSchedule {
  import opened Options
  import opened OtpTable
  import opened OtpService
  import opened OtpRuns
  import opened OtpHistory

  const PHONE := Key("", UserLogin)

  function StoredCode(c: Config): string {
    if c.fixedCode.Some? then c.fixedCode.value else ""
  }

  function WrongCode(c: Config): string {
    StoredCode(c) + "x"
  }

  lemma WrongIsWrong(c: Config)
    ensures Digest(WrongCode(c)) != Digest(StoredCode(c))
  {
    assert |WrongCode(c)| == |StoredCode(c)| + 1;
  }

  /**
   * `born` lists when the rows were created; `attempts` and `open` are of the last one. All
   * attempts, and those on rows created after instant 0; failures from the last millisecond
   * of a code issued at 0 on.
   */
  datatype Board = Board(born: seq<int>, open: bool, attempts: nat, all: nat, tail: nat, hits: nat, now: int)

  function Newest(rows: seq<Row>): Row
    requires rows != []
  {
    rows[|rows| - 1]
  }

  ghost predicate RowsShow(c: Config, rows: seq<Row>, b: Board) {
    && |rows| == |b.born|
    && (forall i :: 0 <= i < |rows| ==> rows[i].key == PHONE && rows[i].createdAt == b.born[i] && b.born[i] >= 0)
    && (rows != [] ==>
          && Newest(rows).attempts == b.attempts && (Newest(rows).consumedAt.None? <==> b.open)
          && Newest(rows).expiresAt == Newest(rows).createdAt + Ms(c.ttl) && Newest(rows).codeHash == Digest(StoredCode(c)))
  }

  ghost predicate SumsShow(rows: seq<Row>, b: Board) {
    SumSince(rows, PHONE, 0) == b.all && SumSince(rows, PHONE, 1) == b.tail
  }

  ghost predicate HitsShow(c: Config, fails: seq<FailEvent>, b: Board) {
    FailsWithin(fails, PHONE, Ms(c.ttl) - 1, GuardedLength(c) + 1) == b.hits
  }

  ghost predicate Shows(c: Config, w: World, b: Board) {
    && Ordered(w.table, w.now) && w.now == b.now
    && RowsShow(c, w.table.rows, b) && SumsShow(w.table.rows, b) && HitsShow(c, w.fails, b)
  }

  // ---------- Checks ----------

  /** The attempts the lock check counts, up to the first millisecond after the lock window. */
  function Load(c: Config, b: Board, at: int): nat {
    if at <= Ms(c.lockWindow) then b.all else b.tail
  }

  predicate Unlocked(c: Config, b: Board, at: int) {
    at <= Ms(c.lockWindow) + 1 && Load(c, b, at) < c.maxFailures
  }

  lemma {:induction false} SameSum(rows: seq<Row>, key: Key, a: int, b: int)
    requires forall i :: 0 <= i < |rows| ==> rows[i].createdAt >= a && rows[i].createdAt >= b
    ensures SumSince(rows, key, a) == SumSince(rows, key, b)
  {
    if rows != [] {
      SameSum(rows[..|rows| - 1], key, a, b);
    }
  }

  lemma PassesLock(c: Config, t: Table, b: Board, at: int)
    requires RowsShow(c, t.rows, b) && SumsShow(t.rows, b) && Unlocked(c, b, at)
    ensures !IsLocked(c, t, PHONE, at)
  {
    if at <= Ms(c.lockWindow) {
      SameSum(t.rows, PHONE, 0, at - Ms(c.lockWindow));
    }
  }

  /** The row issued so many issues ago has left the issue window. */
  predicate RateFits(c: Config, born: seq<int>, at: int) {
    |born| < c.maxIssues || (c.maxIssues > 0 && born[|born| - c.maxIssues] <= at - Ms(c.issueWindow))
  }

  lemma {:induction false} CountAfter(rows: seq<Row>, m: nat, key: Key, since: int)
    requires m <= |rows| && forall i :: 0 <= i < m ==> rows[i].createdAt <= since
    ensures CountSince(rows, key, since) <= |rows| - m
    decreases |rows|
  {
    if m < |rows| {
      CountAfter(rows[..|rows| - 1], m, key, since);
    } else if rows != [] {
      CountAfter(rows[..|rows| - 1], m - 1, key, since);
    }
  }

  lemma PassesRate(c: Config, t: Table, now: int, b: Board, at: int)
    requires Ordered(t, now) && RowsShow(c, t.rows, b) && RateFits(c, b.born, at) && c.maxIssues > 0
    ensures !RateExceeded(c, t, PHONE, at)
  {
    var since := at - Ms(c.issueWindow);
    if |b.born| < c.maxIssues {
      CountAfter(t.rows, 0, PHONE, since);
    } else {
      var m := |b.born| - c.maxIssues;
      forall i | 0 <= i < m + 1
        ensures t.rows[i].createdAt <= since
      {
        assert i < m ==> t.rows[i].createdAt <= t.rows[m].createdAt;
      }
      CountAfter(t.rows, m + 1, PHONE, since);
    }
  }

  predicate Cool(c: Config, b: Board, at: int) {
    b.born == [] || !b.open || at - b.born[|b.born| - 1] >= Ms(c.cooldown)
  }

  lemma PassesCooldown(c: Config, t: Table, b: Board, at: int)
    requires RowsShow(c, t.rows, b) && Cool(c, b, at)
    ensures CooldownLeft(c, t, PHONE, at).None?
  {
    if t.rows != [] {
      LatestAt(t.rows, |t.rows| - 1);
    }
  }

  // ---------- A wrong try ----------

  /** The interval an excess falls into. */
  predicate Counts(c: Config, at: int) {
    Ms(c.ttl) - 1 <= at <= Ms(c.lockWindow) + 1
  }

  function AfterTries(c: Config, b: Board, n: nat, at: int): Board
    requires b.born != []
  {
    if n == 0 then b
    else
      Board(b.born, b.open, b.attempts + n, b.all + n, if b.born[|b.born| - 1] >= 1 then b.tail + n else b.tail,
            if Counts(c, at) then b.hits + n else b.hits, at)
  }

  function Tried(c: Config, b: Board, at: int): Board
    requires b.born != []
  {
    AfterTries(c, b, 1, at)
  }

  predicate CanUse(c: Config, b: Board, at: int) {
    && b.born != [] && b.open && b.now <= at && at < b.born[|b.born| - 1] + Ms(c.ttl) && Unlocked(c, b, at)
  }

  lemma FindsNewest(c: Config, t: Table, b: Board, at: int)
    requires RowsShow(c, t.rows, b) && CanUse(c, b, at)
    ensures Active(t.rows, PHONE, at) == Some(Newest(t.rows))
  {
  }

  lemma TryShape(c: Config, w: World, b: Board, at: int)
    requires Shows(c, w, b) && CanUse(c, b, at) && b.attempts < c.maxAttempts
    ensures var n := |w.table.rows| - 1;
            Apply(c, w, Call(Verify(PHONE, WrongCode(c)), at)) ==
              World(Table(RowsAfterFail(w.table.rows, n), w.table.nextId), at, w.issues, w.fails + [FailOn(w.table.rows[n], at)], w.wins)
  {
    var n := |w.table.rows| - 1;
    PassesLock(c, w.table, b, at);
    FindsNewest(c, w.table, b, at);
    WrongIsWrong(c);
    IncrementIsPoint(w.table, w.now, n);
  }

  lemma TryShowsRows(c: Config, t: Table, b: Board, at: int)
    requires Ordered(t, b.now) && RowsShow(c, t.rows, b) && b.born != [] && b.now <= at
    ensures var out := RowsAfterFail(t.rows, |t.rows| - 1); Ordered(Table(out, t.nextId), at) && RowsShow(c, out, Tried(c, b, at))
  {
  }

  lemma TryShowsSums(c: Config, rows: seq<Row>, b: Board, at: int)
    requires RowsShow(c, rows, b) && SumsShow(rows, b) && b.born != []
    ensures SumsShow(RowsAfterFail(rows, |rows| - 1), Tried(c, b, at))
  {
    SumIncrement(rows, |rows| - 1, PHONE, 0);
    SumIncrement(rows, |rows| - 1, PHONE, 1);
  }

  lemma TryStep(c: Config, w: World, b: Board, at: int)
    requires Shows(c, w, b) && CanUse(c, b, at) && b.attempts < c.maxAttempts
    ensures Shows(c, Apply(c, w, Call(Verify(PHONE, WrongCode(c)), at)), Tried(c, b, at))
  {
    TryShape(c, w, b, at);
    TryShowsRows(c, w.table, b, at);
    TryShowsSums(c, w.table.rows, b, at);
    FailsAppend(w.fails, FailOn(Newest(w.table.rows), at));
  }

  // ---------- The right code ----------

  /** The right code consumes the row, whether it is accepted or finds the attempts exhausted. */
  lemma TakeStep(c: Config, w: World, b: Board, at: int)
    requires Shows(c, w, b) && CanUse(c, b, at)
    ensures Shows(c, Apply(c, w, Call(Verify(PHONE, StoredCode(c)), at)), b.(open := false, now := at))
  {
    var n := |w.table.rows| - 1;
    TakeShape(c, w, b, at);
    TakeShowsRows(c, w.table, b, at);
  }

  function RowsAfterTake(rows: seq<Row>, at: int): seq<Row>
    requires rows != []
  {
    rows[|rows| - 1 := Newest(rows).(consumedAt := Some(at))]
  }

  lemma TakeShape(c: Config, w: World, b: Board, at: int)
    requires Shows(c, w, b) && CanUse(c, b, at)
    ensures var v := Apply(c, w, Call(Verify(PHONE, StoredCode(c)), at));
            v.table == Table(RowsAfterTake(w.table.rows, at), w.table.nextId) && v.now == at && v.fails == w.fails
  {
    PassesLock(c, w.table, b, at);
    FindsNewest(c, w.table, b, at);
    MarkIsPointAt(w.table, w.now, |w.table.rows| - 1, at);
  }

  lemma MarkIsPointAt(t: Table, now: int, i: nat, at: int)
    requires Ordered(t, now) && i < |t.rows|
    ensures MarkConsumed(t.rows, t.rows[i].id, at) == t.rows[i := t.rows[i].(consumedAt := Some(at))]
  {
    assert forall j :: 0 <= j < |t.rows| && j != i ==> t.rows[j].id != t.rows[i].id;
  }

  lemma TakeShowsRows(c: Config, t: Table, b: Board, at: int)
    requires Ordered(t, b.now) && RowsShow(c, t.rows, b) && SumsShow(t.rows, b) && t.rows != [] && b.now <= at
    ensures var out := RowsAfterTake(t.rows, at);
            Ordered(Table(out, t.nextId), at) && RowsShow(c, out, b.(open := false, now := at)) && SumsShow(out, b.(open := false, now := at))
  {
    CountsAgree(t.rows, RowsAfterTake(t.rows, at), PHONE, 0);
    CountsAgree(t.rows, RowsAfterTake(t.rows, at), PHONE, 1);
  }

  // ---------- An issue ----------

  predicate CanIssue(c: Config, b: Board, at: int) {
    && b.now <= at && 0 <= at && Unlocked(c, b, at) && RateFits(c, b.born, at) && Cool(c, b, at)
  }

  function Reissued(b: Board, at: int): Board {
    Board(b.born + [at], true, 0, b.all, b.tail, b.hits, at)
  }

  lemma IssueShowsRows(c: Config, t: Table, b: Board, at: int)
    requires Ordered(t, b.now) && RowsShow(c, t.rows, b) && b.now <= at && 0 <= at
    ensures var out := RowsAfterIssue(c, t, PHONE, "", at);
            Ordered(Table(out, t.nextId + 1), at) && RowsShow(c, out, Reissued(b, at))
  {
    var kept := InvalidateActive(t.rows, PHONE, at);
    assert forall i :: 0 <= i < |t.rows| ==> kept[i] == Invalidated(t.rows[i], PHONE, at);
  }

  lemma IssueShowsSums(c: Config, t: Table, b: Board, at: int)
    requires SumsShow(t.rows, b)
    ensures SumsShow(RowsAfterIssue(c, t, PHONE, "", at), Reissued(b, at))
  {
    var kept := InvalidateActive(t.rows, PHONE, at);
    var r := NewRow(c, t.nextId, PHONE, "", at);
    CountsAgree(t.rows, kept, PHONE, 0);
    CountsAgree(t.rows, kept, PHONE, 1);
    CountsAppend(kept, r, PHONE, 0);
    CountsAppend(kept, r, PHONE, 1);
  }

  lemma IssueTable(c: Config, w: World, b: Board, at: int)
    requires Shows(c, w, b) && CanIssue(c, b, at) && c.maxIssues > 0
    ensures var v := Apply(c, w, Call(Issue(PHONE, ""), at));
            v.table == Table(RowsAfterIssue(c, w.table, PHONE, "", at), w.table.nextId + 1) && v.now == at && v.fails == w.fails
  {
    PassesLock(c, w.table, b, at);
    PassesRate(c, w.table, w.now, b, at);
    PassesCooldown(c, w.table, b, at);
  }

  lemma IssueStepShows(c: Config, w: World, b: Board, at: int)
    requires Shows(c, w, b) && CanIssue(c, b, at) && c.maxIssues > 0
    ensures Shows(c, Apply(c, w, Call(Issue(PHONE, ""), at)), Reissued(b, at))
  {
    IssueTable(c, w, b, at);
    IssueShowsRows(c, w.table, b, at);
    IssueShowsSums(c, w.table, b, at);
  }

  // ---------- Pruning everything ----------

  lemma HasMember(rows: seq<Row>)
    ensures rows != [] ==> exists r :: r in rows
  {
    if rows != [] {
      assert rows[0] in rows;
    }
  }

  /** A pruning once every row has left both windows. */
  lemma PruneAll(c: Config, w: World, b: Board, at: int)
    requires Shows(c, w, b) && b.now <= at
    requires forall i :: 0 <= i < |b.born| ==> b.born[i] < at - Ms(Retention(c))
    ensures Shows(c, Apply(c, w, Call(Prune, at)), Board([], false, 0, 0, 0, b.hits, at))
  {
    var out := DeleteBefore(w.table.rows, at - Ms(Retention(c)));
    forall r | r in w.table.rows
      ensures r.createdAt < at - Ms(Retention(c))
    {
      var i :| 0 <= i < |w.table.rows| && w.table.rows[i] == r;
    }
    HasMember(out);
  }

  // ---------- Runs ----------

  /** A claim about calls and the world they lead to, kept abstract while a run is built. */
  type Claim = (seq<Call>, World) -> bool

  ghost predicate Closed(c: Config, reach: Claim) {
    forall calls: seq<Call>, w: World, call: Call :: reach(calls, w) && w.now <= call.at ==> reach(calls + [call], Apply(c, w, call))
  }

  lemma Extend(c: Config, reach: Claim, calls: seq<Call>, w: World, call: Call)
    requires Closed(c, reach) && reach(calls, w) && w.now <= call.at
    ensures reach(calls + [call], Apply(c, w, call))
  {
  }

  /** `n` wrong tries at one instant. */
  lemma {:induction false} Tries(c: Config, reach: Claim, calls: seq<Call>, w: World, b: Board, n: nat, at: int)
    returns (more: seq<Call>, v: World)
    requires Closed(c, reach) && reach(calls, w) && Shows(c, w, b)
    requires b.born != [] && b.open && b.now <= at < b.born[|b.born| - 1] + Ms(c.ttl)
    requires at <= Ms(c.lockWindow) + 1
    requires b.attempts + n <= c.maxAttempts && (n > 0 ==> Load(c, b, at) + n <= c.maxFailures)
    ensures reach(more, v) && Shows(c, v, AfterTries(c, b, n, at))
    decreases n
  {
    if n == 0 {
      more, v := calls, w;
    } else {
      var call := Call(Verify(PHONE, WrongCode(c)), at);
      TryStep(c, w, b, at);
      Extend(c, reach, calls, w, call);
      more, v := Tries(c, reach, calls + [call], Apply(c, w, call), Tried(c, b, at), n - 1, at);
    }
  }

  lemma Take(c: Config, reach: Claim, calls: seq<Call>, w: World, b: Board, at: int) returns (more: seq<Call>, v: World)
    requires Closed(c, reach) && reach(calls, w) && Shows(c, w, b) && CanUse(c, b, at)
    ensures reach(more, v) && Shows(c, v, b.(open := false, now := at))
  {
    var call := Call(Verify(PHONE, StoredCode(c)), at);
    TakeStep(c, w, b, at);
    Extend(c, reach, calls, w, call);
    more, v := calls + [call], Apply(c, w, call);
  }

  lemma Reissue(c: Config, reach: Claim, calls: seq<Call>, w: World, b: Board, at: int) returns (more: seq<Call>, v: World)
    requires Closed(c, reach) && reach(calls, w) && Shows(c, w, b) && CanIssue(c, b, at) && c.maxIssues > 0
    ensures reach(more, v) && Shows(c, v, Reissued(b, at))
  {
    var call := Call(Issue(PHONE, ""), at);
    IssueStepShows(c, w, b, at);
    Extend(c, reach, calls, w, call);
    more, v := calls + [call], Apply(c, w, call);
  }

  // ---------- Rows one after another ----------

  /** The earliest instants the issue rate allows, the first code at 0 and the others from `first` on. */
  function SlotAt(c: Config, first: int, k: nat): int
    requires c.maxIssues > 0
  {
    if k == 0 then 0
    else if k < c.maxIssues then first
    else
      var next := SlotAt(c, first, k - c.maxIssues) + Ms(c.issueWindow);
      if next >= first then next else first
  }

  lemma {:induction false} SlotsRise(c: Config, first: int, j: nat, k: nat)
    requires c.maxIssues > 0 && first >= 0 && j <= k
    ensures SlotAt(c, first, j) <= SlotAt(c, first, k)
    ensures k > 0 ==> SlotAt(c, first, k) >= first
    decreases k
  {
    if 0 < j && k >= c.maxIssues {
      if j >= c.maxIssues {
        SlotsRise(c, first, j - c.maxIssues, k - c.maxIssues);
      }
    } else if k >= c.maxIssues {
      SlotsRise(c, first, 0, k - c.maxIssues);
    }
  }

  lemma SlotsSpaced(c: Config, first: int, k: nat)
    requires c.maxIssues > 0
    ensures SlotAt(c, first, k) + Ms(c.issueWindow) <= SlotAt(c, first, k + c.maxIssues)
  {
  }

  function Slots(c: Config, first: int, m: nat): seq<int>
    requires c.maxIssues > 0
  {
    seq(m, i requires 0 <= i < m => SlotAt(c, first, i))
  }

  /** A row can be issued `m`-th once its slot has come. */
  lemma SlotFits(c: Config, first: int, m: nat, at: int)
    requires c.maxIssues > 0 && SlotAt(c, first, m) <= at
    ensures RateFits(c, Slots(c, first, m), at)
  {
    if m >= c.maxIssues {
      SlotsSpaced(c, first, m - c.maxIssues);
    }
  }

  /** The first code, issued at 0, with `n` wrong tries at `first`. */
  function FirstBoard(c: Config, n: nat, first: int): Board {
    AfterTries(c, Board([0], true, 0, 0, 0, 0, 0), n, first)
  }

  lemma FirstCode(c: Config, reach: Claim, n: nat, first: int) returns (calls: seq<Call>, w: World)
    requires ValidConfig(c) && Closed(c, reach) && reach([], World(EMPTY, 0, [], [], []))
    requires 0 <= first < Ms(c.ttl) && first <= Ms(c.lockWindow) && n <= c.maxAttempts && n <= c.maxFailures
    ensures reach(calls, w) && Shows(c, w, FirstBoard(c, n, first))
  {
    var none := Board([], false, 0, 0, 0, 0, 0);
    assert Shows(c, World(EMPTY, 0, [], [], []), none);
    calls, w := Reissue(c, reach, [], World(EMPTY, 0, [], [], []), none, 0);
    assert Reissued(none, 0) == Board([0], true, 0, 0, 0, 0, 0);
    calls, w := Tries(c, reach, calls, w, Board([0], true, 0, 0, 0, 0, 0), n, first);
  }

  /** The next code, issued at `at`, with `n` wrong tries at that instant. */
  lemma NextCode(c: Config, reach: Claim, calls: seq<Call>, w: World, b: Board, at: int, n: nat) returns (more: seq<Call>, v: World)
    requires ValidConfig(c) && Closed(c, reach) && reach(calls, w) && Shows(c, w, b) && CanIssue(c, b, at)
    requires n <= c.maxAttempts && Load(c, b, at) + n <= c.maxFailures
    ensures reach(more, v) && Shows(c, v, AfterTries(c, Reissued(b, at), n, at))
  {
    more, v := Reissue(c, reach, calls, w, b, at);
    more, v := Tries(c, reach, more, v, Reissued(b, at), n, at);
  }

  function TakenBoard(c: Config, b: Board, at: int, n: nat): Board {
    AfterTries(c, Reissued(b, at), n, at).(open := false, now := at)
  }

  /** The next code, tried and then consumed, all at `at`. */
  lemma TakenCode(c: Config, reach: Claim, calls: seq<Call>, w: World, b: Board, at: int, n: nat) returns (more: seq<Call>, v: World)
    requires ValidConfig(c) && Closed(c, reach) && reach(calls, w) && Shows(c, w, b) && CanIssue(c, b, at)
    requires n <= c.maxAttempts && Load(c, b, at) + n < c.maxFailures
    ensures reach(more, v) && Shows(c, v, TakenBoard(c, b, at, n))
  {
    more, v := NextCode(c, reach, calls, w, b, at, n);
    more, v := Take(c, reach, more, v, AfterTries(c, Reissued(b, at), n, at), at);
  }

  /** `m` codes in their slots, each tried to its cap and consumed. */
  ghost predicate Filled(c: Config, first: int, b: Board, m: nat)
    requires c.maxIssues > 0
  {
    && m >= 1 && b.born == Slots(c, first, m) && !b.open && b.tail <= b.all == m * c.maxAttempts
    && (Counts(c, first) ==> b.tail == (m - 1) * c.maxAttempts && b.hits == m * c.maxAttempts)
    && b.now == if m == 1 then first else SlotAt(c, first, m - 1)
  }

  predicate CanFill(c: Config, first: int, m: nat) {
    && ValidConfig(c) && m >= 1 && m * c.maxAttempts < c.maxFailures
    && 0 <= first < Ms(c.ttl) && first <= Ms(c.lockWindow) && SlotAt(c, first, m - 1) <= Ms(c.lockWindow) + 1
  }

  lemma FillFirst(c: Config, reach: Claim, first: int) returns (calls: seq<Call>, w: World, b: Board)
    requires CanFill(c, first, 1) && Closed(c, reach) && reach([], World(EMPTY, 0, [], [], []))
    ensures reach(calls, w) && Shows(c, w, b) && Filled(c, first, b, 1)
  {
    calls, w := FirstCode(c, reach, c.maxAttempts, first);
    b := FirstBoard(c, c.maxAttempts, first);
    calls, w := Take(c, reach, calls, w, b, first);
    b := b.(open := false, now := first);
    assert b.born == Slots(c, first, 1);
  }

  lemma NextFits(c: Config, first: int, b: Board, m: nat)
    requires CanFill(c, first, m + 1) && m >= 1 && Filled(c, first, b, m)
    ensures CanIssue(c, b, SlotAt(c, first, m)) && Load(c, b, SlotAt(c, first, m)) + c.maxAttempts < c.maxFailures
  {
    assert (m + 1) * c.maxAttempts == m * c.maxAttempts + c.maxAttempts;
    SlotsRise(c, first, m - 1, m);
    SlotFits(c, first, m, SlotAt(c, first, m));
  }

  lemma FilledNext(c: Config, first: int, b: Board, m: nat)
    requires CanFill(c, first, m + 1) && m >= 1 && Filled(c, first, b, m)
    ensures Filled(c, first, TakenBoard(c, b, SlotAt(c, first, m), c.maxAttempts), m + 1)
  {
    var at := SlotAt(c, first, m);
    assert (m + 1) * c.maxAttempts == m * c.maxAttempts + c.maxAttempts && m * c.maxAttempts == (m - 1) * c.maxAttempts + c.maxAttempts;
    SlotsRise(c, first, m - 1, m);
    assert b.born + [at] == Slots(c, first, m + 1);
  }

  lemma {:induction false} Fill(c: Config, reach: Claim, first: int, m: nat) returns (calls: seq<Call>, w: World, b: Board)
    requires CanFill(c, first, m) && Closed(c, reach) && reach([], World(EMPTY, 0, [], [], []))
    ensures reach(calls, w) && Shows(c, w, b) && Filled(c, first, b, m)
  {
    if m == 1 {
      calls, w, b := FillFirst(c, reach, first);
    } else {
      CanFillLess(c, first, m);
      calls, w, b := Fill(c, reach, first, m - 1);
      NextFits(c, first, b, m - 1);
      FilledNext(c, first, b, m - 1);
      calls, w := TakenCode(c, reach, calls, w, b, SlotAt(c, first, m - 1), c.maxAttempts);
      b := TakenBoard(c, b, SlotAt(c, first, m - 1), c.maxAttempts);
    }
  }

  lemma CanFillLess(c: Config, first: int, m: nat)
    requires CanFill(c, first, m) && m >= 2
    ensures CanFill(c, first, m - 1)
  {
    assert m * c.maxAttempts == (m - 1) * c.maxAttempts + c.maxAttempts;
    SlotsRise(c, first, m - 2, m - 1);
  }
}
