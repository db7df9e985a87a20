/**
 * Overlapping one-time-password calls. Every statement on the table is one atomic step, and
 * calls in flight interleave freely; what a call has read may be stale when it writes.
 */
module OtpInterleaving {
  import opened Options
  import opened OtpTable
  import opened OtpService
  import opened Totals

  /** A call between two of its statements. */
  datatype Flight =
    | Checked(key: Key, code: string)
    | Holding(key: Key, code: string, row: Row)
    | Entered(key: Key)
    | Allowed(key: Key)
    | Ready(key: Key)
    | Cleared(key: Key)
    | Done

  /** `wins` counts, by row id, the verifications that were told they succeeded. */
  datatype State = State(table: Table, now: int, flights: seq<Flight>, wins: multiset<nat>)

  datatype Step =
    | BeginVerify(key: Key, code: string)
    | BeginIssue(key: Key)
    | Advance(flight: nat, generated: string)
    | Prune
    | Wait(until: int)

  // ---------- Steps ----------

  function Moved(s: State, rows: seq<Row>, i: nat, f: Flight): State
    requires i < |s.flights|
  {
    s.(table := Table(rows, s.table.nextId), flights := s.flights[i := f])
  }

  /** A verification with its code row in hand decides on what it read and writes. */
  function Settle(c: Config, s: State, i: nat, code: string, r: Row): State
    requires i < |s.flights|
  {
    if r.attempts >= c.maxAttempts then Moved(s, MarkConsumed(s.table.rows, r.id, s.now), i, Done)
    else if Digest(code) != r.codeHash then Moved(s, IncrementAttempts(s.table.rows, r.id), i, Done)
    else Moved(s, MarkConsumed(s.table.rows, r.id, s.now), i, Done).(wins := s.wins + multiset{r.id})
  }

  function Insert(c: Config, s: State, i: nat, key: Key, generated: string): State
    requires i < |s.flights|
  {
    s.(table := Table(s.table.rows + [NewRow(c, s.table.nextId, key, generated, s.now)], s.table.nextId + 1),
       flights := s.flights[i := Done])
  }

  function AdvanceFlight(c: Config, s: State, i: nat, generated: string): State
    requires i < |s.flights|
  {
    var rows := s.table.rows;
    match s.flights[i]
    case Checked(key, code) =>
      (match Active(rows, key, s.now)
       case None => Moved(s, rows, i, Done)
       case Some(r) => Moved(s, rows, i, Holding(key, code, r)))
    case Holding(key, code, r) => Settle(c, s, i, code, r)
    case Entered(key) => Moved(s, rows, i, if RateExceeded(c, s.table, key, s.now) then Done else Allowed(key))
    case Allowed(key) => Moved(s, rows, i, if CooldownLeft(c, s.table, key, s.now).Some? then Done else Ready(key))
    case Ready(key) => Moved(s, InvalidateActive(rows, key, s.now), i, Cleared(key))
    case Cleared(key) => Insert(c, s, i, key, generated)
    case Done => s
  }

  function Begin(c: Config, s: State, key: Key, f: Flight): State {
    if IsLocked(c, s.table, key, s.now) then s else s.(flights := s.flights + [f])
  }

  function Apply(c: Config, s: State, step: Step): State {
    match step
    case BeginVerify(key, code) => Begin(c, s, key, Checked(key, code))
    case BeginIssue(key) => Begin(c, s, key, Entered(key))
    case Advance(i, generated) => if i < |s.flights| then AdvanceFlight(c, s, i, generated) else s
    case Prune => s.(table := PruneStep(c, s.table, s.now))
    case Wait(until) => if until >= s.now then s.(now := until) else s
  }

  function Run(c: Config, start: int, steps: seq<Step>): State {
    if steps == [] then State(EMPTY, start, [], multiset{})
    else Apply(c, Run(c, start, steps[..|steps| - 1]), steps[|steps| - 1])
  }

  // ---------- Weights ----------

  function FailWeight(c: Config, key: Key, now: int): Row -> nat {
    (r: Row) => if r.key == key && r.createdAt >= now - Ms(c.lockWindow) then r.attempts else 0
  }

  function IssueWeight(c: Config, key: Key, now: int): Row -> nat {
    (r: Row) => if r.key == key && r.createdAt > now - Ms(c.issueWindow) then 1 else 0
  }

  function OpenWeight(key: Key): Row -> nat {
    (r: Row) => if r.key == key && r.consumedAt.None? then 1 else 0
  }

  /** Verifications of a key between lock check and finish. */
  function Verifying(key: Key): Flight -> nat {
    (f: Flight) => if (f.Checked? || f.Holding?) && f.key == key then 1 else 0
  }

  /** Issues of a key between rate check and insert. */
  function Issuing(key: Key): Flight -> nat {
    (f: Flight) => if (f.Allowed? || f.Ready? || f.Cleared?) && f.key == key then 1 else 0
  }

  function Clearing(key: Key): Flight -> nat {
    (f: Flight) => if f.Cleared? && f.key == key then 1 else 0
  }

  function HoldingRow(id: nat): Flight -> nat {
    (f: Flight) => if f.Holding? && f.row.id == id then 1 else 0
  }

  /** Those that hold a row and will not find its attempts exhausted. */
  function Charging(c: Config, id: nat): Flight -> nat {
    (f: Flight) => if f.Holding? && f.row.id == id && f.row.attempts < c.maxAttempts then 1 else 0
  }

  /** How many calls per phone and purpose are ever in flight together. */
  datatype Load = Load(verifies: nat, issues: nat)

  ghost predicate Carries(load: Load, flights: seq<Flight>) {
    forall key :: Total(flights, Verifying(key)) <= load.verifies && Total(flights, Issuing(key)) <= load.issues
  }

  ghost predicate LoadAtMost(c: Config, start: int, steps: seq<Step>, load: Load) {
    forall n :: 0 <= n <= |steps| ==> Carries(load, Run(c, start, steps[..n]).flights)
  }

  lemma {:induction false} SumIsTotal(c: Config, rows: seq<Row>, key: Key, now: int)
    ensures SumSince(rows, key, now - Ms(c.lockWindow)) == Total(rows, FailWeight(c, key, now))
    ensures CountSince(rows, key, now - Ms(c.issueWindow)) == Total(rows, IssueWeight(c, key, now))
  {
    if rows != [] {
      SumIsTotal(c, rows[..|rows| - 1], key, now);
    }
  }

  // ---------- Invariant ----------

  /** Attempts in the lock window, and verifications that may still add one. */
  ghost predicate FailuresBounded(c: Config, load: Load, rows: seq<Row>, now: int, flights: seq<Flight>) {
    forall key :: Total(rows, FailWeight(c, key, now)) + Total(flights, Verifying(key)) <= c.maxFailures - 1 + load.verifies
  }

  /** Rows in the issue window, and issues that may still add one. */
  ghost predicate IssuesBounded(c: Config, load: Load, rows: seq<Row>, now: int, flights: seq<Flight>) {
    forall key :: Total(rows, IssueWeight(c, key, now)) + Total(flights, Issuing(key)) <= c.maxIssues - 1 + load.issues
  }

  /** Unconsumed rows, and issues about to insert one. */
  ghost predicate OpenBounded(load: Load, rows: seq<Row>, flights: seq<Flight>) {
    forall key :: Total(rows, OpenWeight(key)) + Total(flights, Clearing(key)) <= load.issues
  }

  ghost predicate AttemptsBounded(c: Config, load: Load, rows: seq<Row>, flights: seq<Flight>) {
    forall i :: 0 <= i < |rows| ==> rows[i].attempts + Total(flights, Charging(c, rows[i].id)) <= c.maxAttempts - 1 + load.verifies
  }

  /** What a call holds was once in the table. */
  ghost predicate HoldersSound(t: Table, flights: seq<Flight>) {
    forall f :: f in flights && f.Holding? ==>
      f.row.id < t.nextId && forall i :: 0 <= i < |t.rows| && t.rows[i].id == f.row.id ==> t.rows[i].key == f.key
  }

  /** Successes on a row, and calls that may still succeed on it. */
  ghost predicate WinsBounded(load: Load, t: Table, flights: seq<Flight>, wins: multiset<nat>) {
    && (forall id :: wins[id] + Total(flights, HoldingRow(id)) <= load.verifies)
    && (forall i :: 0 <= i < |t.rows| && t.rows[i].consumedAt.None? ==> wins[t.rows[i].id] == 0)
    && (forall id :: id in wins ==> id < t.nextId)
  }

  ghost predicate Invariant(c: Config, load: Load, s: State) {
    && Ordered(s.table, s.now)
    && HoldersSound(s.table, s.flights)
    && FailuresBounded(c, load, s.table.rows, s.now, s.flights)
    && IssuesBounded(c, load, s.table.rows, s.now, s.flights)
    && OpenBounded(load, s.table.rows, s.flights)
    && AttemptsBounded(c, load, s.table.rows, s.flights)
    && WinsBounded(load, s.table, s.flights, s.wins)
  }

  // ---------- Flights that ease off ----------

  /** Row by row the same, except that some may have been consumed. */
  ghost predicate Fades(out: seq<Row>, rows: seq<Row>) {
    && |out| == |rows|
    && forall i :: 0 <= i < |rows| ==>
         out[i].id == rows[i].id && out[i].key == rows[i].key && out[i].attempts == rows[i].attempts
         && out[i].createdAt == rows[i].createdAt && (out[i].consumedAt.None? ==> rows[i].consumedAt.None?)
  }

  /** A flight that ends, or an issue that goes on after its cooldown check. */
  predicate Eases(to: Flight, from: Flight) {
    to.Done? || (from.Allowed? && to == Ready(from.key))
  }

  lemma MoveKeepsFailures(c: Config, load: Load, rows: seq<Row>, out: seq<Row>, now: int, flights: seq<Flight>, i: nat, f: Flight)
    requires FailuresBounded(c, load, rows, now, flights)
    requires Fades(out, rows) && i < |flights| && (Eases(f, flights[i]) || (flights[i].Checked? && f.Holding? && f.key == flights[i].key)
                                                   || (f.Allowed? && flights[i].Entered?) || (f.Cleared? && flights[i].Ready?))
    ensures FailuresBounded(c, load, out, now, flights[i := f])
  {
    forall key
      ensures Total(out, FailWeight(c, key, now)) + Total(flights[i := f], Verifying(key)) <= c.maxFailures - 1 + load.verifies
    {
      TotalAtMost(out, FailWeight(c, key, now), rows, FailWeight(c, key, now));
      TotalUpdate(flights, i, f, Verifying(key));
      assert Total(rows, FailWeight(c, key, now)) + Total(flights, Verifying(key)) <= c.maxFailures - 1 + load.verifies;
    }
  }

  lemma MoveKeepsIssues(c: Config, load: Load, rows: seq<Row>, out: seq<Row>, now: int, flights: seq<Flight>, i: nat, f: Flight)
    requires IssuesBounded(c, load, rows, now, flights)
    requires Fades(out, rows) && i < |flights| && (Eases(f, flights[i]) || (flights[i].Checked? && f.Holding?)
                                                   || (flights[i].Ready? && f == Cleared(flights[i].key)))
    ensures IssuesBounded(c, load, out, now, flights[i := f])
  {
    forall key
      ensures Total(out, IssueWeight(c, key, now)) + Total(flights[i := f], Issuing(key)) <= c.maxIssues - 1 + load.issues
    {
      TotalAtMost(out, IssueWeight(c, key, now), rows, IssueWeight(c, key, now));
      TotalUpdate(flights, i, f, Issuing(key));
      assert Total(rows, IssueWeight(c, key, now)) + Total(flights, Issuing(key)) <= c.maxIssues - 1 + load.issues;
    }
  }

  lemma MoveKeepsOpen(load: Load, rows: seq<Row>, out: seq<Row>, flights: seq<Flight>, i: nat, f: Flight)
    requires OpenBounded(load, rows, flights)
    requires Fades(out, rows) && i < |flights| && !f.Cleared?
    ensures OpenBounded(load, out, flights[i := f])
  {
    forall key
      ensures Total(out, OpenWeight(key)) + Total(flights[i := f], Clearing(key)) <= load.issues
    {
      TotalAtMost(out, OpenWeight(key), rows, OpenWeight(key));
      TotalUpdate(flights, i, f, Clearing(key));
      assert Total(rows, OpenWeight(key)) + Total(flights, Clearing(key)) <= load.issues;
    }
  }

  lemma MoveKeepsAttempts(c: Config, load: Load, rows: seq<Row>, out: seq<Row>, flights: seq<Flight>, i: nat, f: Flight)
    requires AttemptsBounded(c, load, rows, flights)
    requires Fades(out, rows) && i < |flights| && !f.Holding?
    ensures AttemptsBounded(c, load, out, flights[i := f])
  {
    forall k | 0 <= k < |out|
      ensures out[k].attempts + Total(flights[i := f], Charging(c, out[k].id)) <= c.maxAttempts - 1 + load.verifies
    {
      TotalUpdate(flights, i, f, Charging(c, rows[k].id));
    }
  }

  lemma MoveKeepsWins(load: Load, t: Table, out: seq<Row>, flights: seq<Flight>, wins: multiset<nat>, i: nat, f: Flight)
    requires WinsBounded(load, t, flights, wins)
    requires Fades(out, t.rows) && i < |flights| && !f.Holding?
    ensures WinsBounded(load, Table(out, t.nextId), flights[i := f], wins)
  {
    forall id
      ensures wins[id] + Total(flights[i := f], HoldingRow(id)) <= load.verifies
    {
      TotalUpdate(flights, i, f, HoldingRow(id));
      assert wins[id] + Total(flights, HoldingRow(id)) <= load.verifies;
    }
  }

  lemma MoveKeepsHolders(t: Table, out: seq<Row>, flights: seq<Flight>, i: nat, f: Flight)
    requires HoldersSound(t, flights)
    requires Fades(out, t.rows) && i < |flights| && !f.Holding?
    ensures HoldersSound(Table(out, t.nextId), flights[i := f])
  {
    forall g | g in flights[i := f] && g.Holding?
      ensures g in flights
    {
    }
  }

  lemma FadesKeepsOrder(t: Table, out: seq<Row>, now: int)
    requires Ordered(t, now) && Fades(out, t.rows)
    ensures Ordered(Table(out, t.nextId), now)
  {
  }

  lemma MoveKeepsInvariant(c: Config, load: Load, s: State, out: seq<Row>, i: nat, f: Flight)
    requires Invariant(c, load, s)
    requires Fades(out, s.table.rows) && i < |s.flights| && Eases(f, s.flights[i])
    ensures Invariant(c, load, Moved(s, out, i, f))
  {
    FadesKeepsOrder(s.table, out, s.now);
    MoveKeepsHolders(s.table, out, s.flights, i, f);
    MoveKeepsFailures(c, load, s.table.rows, out, s.now, s.flights, i, f);
    MoveKeepsIssues(c, load, s.table.rows, out, s.now, s.flights, i, f);
    MoveKeepsOpen(load, s.table.rows, out, s.flights, i, f);
    MoveKeepsAttempts(c, load, s.table.rows, out, s.flights, i, f);
    MoveKeepsWins(load, s.table, out, s.flights, s.wins, i, f);
  }

  // ---------- A verification takes its row ----------

  /** Calls that hold a row of the table are verifications of its key. */
  lemma HoldersVerify(t: Table, flights: seq<Flight>, k: nat)
    requires HoldersSound(t, flights) && k < |t.rows|
    ensures Total(flights, HoldingRow(t.rows[k].id)) <= Total(flights, Verifying(t.rows[k].key))
  {
    TotalAtMost(flights, HoldingRow(t.rows[k].id), flights, Verifying(t.rows[k].key));
  }

  lemma ChargersHold(c: Config, flights: seq<Flight>, id: nat)
    ensures Total(flights, Charging(c, id)) <= Total(flights, HoldingRow(id))
  {
    TotalAtMost(flights, Charging(c, id), flights, HoldingRow(id));
  }

  lemma TakeKeepsHolders(t: Table, now: int, flights: seq<Flight>, i: nat, code: string, k: nat)
    requires Ordered(t, now) && HoldersSound(t, flights) && i < |flights| && k < |t.rows|
    ensures HoldersSound(t, flights[i := Holding(t.rows[k].key, code, t.rows[k])])
  {
    forall g | g in flights[i := Holding(t.rows[k].key, code, t.rows[k])] && g.Holding?
      ensures g in flights || g == Holding(t.rows[k].key, code, t.rows[k])
    {
    }
    forall j | 0 <= j < |t.rows| && t.rows[j].id == t.rows[k].id
      ensures j == k
    {
    }
  }

  lemma TakeKeepsAttempts(c: Config, load: Load, t: Table, now: int, flights: seq<Flight>, i: nat, code: string, k: nat)
    requires Ordered(t, now) && AttemptsBounded(c, load, t.rows, flights) && i < |flights| && k < |t.rows|
    requires HoldersSound(t, flights[i := Holding(t.rows[k].key, code, t.rows[k])])
    requires Carries(load, flights[i := Holding(t.rows[k].key, code, t.rows[k])])
    ensures AttemptsBounded(c, load, t.rows, flights[i := Holding(t.rows[k].key, code, t.rows[k])])
  {
    var r := t.rows[k];
    var out := flights[i := Holding(r.key, code, r)];
    forall j | 0 <= j < |t.rows|
      ensures t.rows[j].attempts + Total(out, Charging(c, t.rows[j].id)) <= c.maxAttempts - 1 + load.verifies
    {
      TotalUpdate(flights, i, Holding(r.key, code, r), Charging(c, t.rows[j].id));
      if j == k && r.attempts < c.maxAttempts {
        ChargersHold(c, out, r.id);
        HoldersVerify(t, out, k);
      }
    }
  }

  lemma TakeKeepsWins(load: Load, t: Table, flights: seq<Flight>, wins: multiset<nat>, i: nat, code: string, k: nat)
    requires WinsBounded(load, t, flights, wins) && i < |flights| && k < |t.rows| && t.rows[k].consumedAt.None?
    requires HoldersSound(t, flights[i := Holding(t.rows[k].key, code, t.rows[k])])
    requires Carries(load, flights[i := Holding(t.rows[k].key, code, t.rows[k])])
    ensures WinsBounded(load, t, flights[i := Holding(t.rows[k].key, code, t.rows[k])], wins)
  {
    var f := Holding(t.rows[k].key, code, t.rows[k]);
    forall id
      ensures wins[id] + Total(flights[i := f], HoldingRow(id)) <= load.verifies
    {
      TotalUpdate(flights, i, f, HoldingRow(id));
      assert wins[id] + Total(flights, HoldingRow(id)) <= load.verifies;
      if id == t.rows[k].id {
        HoldersVerify(t, flights[i := f], k);
      }
    }
  }

  lemma TakeKeepsInvariant(c: Config, load: Load, s: State, i: nat, code: string, k: nat)
    requires Invariant(c, load, s) && i < |s.flights| && k < |s.table.rows|
    requires s.flights[i] == Checked(s.table.rows[k].key, code) && s.table.rows[k].consumedAt.None?
    requires Carries(load, s.flights[i := Holding(s.table.rows[k].key, code, s.table.rows[k])])
    ensures Invariant(c, load, Moved(s, s.table.rows, i, Holding(s.table.rows[k].key, code, s.table.rows[k])))
  {
    var rows := s.table.rows;
    var f := Holding(rows[k].key, code, rows[k]);
    TakeKeepsHolders(s.table, s.now, s.flights, i, code, k);
    MoveKeepsFailures(c, load, rows, rows, s.now, s.flights, i, f);
    MoveKeepsIssues(c, load, rows, rows, s.now, s.flights, i, f);
    MoveKeepsOpen(load, rows, rows, s.flights, i, f);
    TakeKeepsAttempts(c, load, s.table, s.now, s.flights, i, code, k);
    TakeKeepsWins(load, s.table, s.flights, s.wins, i, code, k);
  }

  // ---------- A verification ends ----------

  lemma WinKeepsInvariant(c: Config, load: Load, s: State, i: nat)
    requires Invariant(c, load, s) && i < |s.flights| && s.flights[i].Holding?
    ensures Invariant(c, load, Moved(s, MarkConsumed(s.table.rows, s.flights[i].row.id, s.now), i, Done).(wins := s.wins + multiset{s.flights[i].row.id}))
  {
    var id := s.flights[i].row.id;
    var out := MarkConsumed(s.table.rows, id, s.now);
    MoveKeepsInvariant(c, load, s, out, i, Done);
    WinKeepsWins(load, s.table, s.flights, s.wins, i, s.now);
  }

  lemma WinKeepsWins(load: Load, t: Table, flights: seq<Flight>, wins: multiset<nat>, i: nat, now: int)
    requires WinsBounded(load, t, flights, wins) && HoldersSound(t, flights)
    requires i < |flights| && flights[i].Holding?
    ensures WinsBounded(load, Table(MarkConsumed(t.rows, flights[i].row.id, now), t.nextId), flights[i := Done], wins + multiset{flights[i].row.id})
  {
    var won := flights[i].row.id;
    forall id
      ensures (wins + multiset{won})[id] + Total(flights[i := Done], HoldingRow(id)) <= load.verifies
    {
      TotalUpdate(flights, i, Done, HoldingRow(id));
      assert wins[id] + Total(flights, HoldingRow(id)) <= load.verifies;
    }
  }

  function Charged(rows: seq<Row>, k: nat): seq<Row>
    requires k < |rows|
  {
    rows[k := rows[k].(attempts := rows[k].attempts + 1)]
  }

  lemma ChargeKeepsFailures(c: Config, load: Load, rows: seq<Row>, now: int, flights: seq<Flight>, i: nat, k: nat)
    requires FailuresBounded(c, load, rows, now, flights)
    requires i < |flights| && k < |rows| && flights[i].Holding? && flights[i].key == rows[k].key
    ensures FailuresBounded(c, load, Charged(rows, k), now, flights[i := Done])
  {
    forall key
      ensures Total(Charged(rows, k), FailWeight(c, key, now)) + Total(flights[i := Done], Verifying(key)) <= c.maxFailures - 1 + load.verifies
    {
      TotalUpdate(rows, k, Charged(rows, k)[k], FailWeight(c, key, now));
      TotalUpdate(flights, i, Done, Verifying(key));
      assert Total(rows, FailWeight(c, key, now)) + Total(flights, Verifying(key)) <= c.maxFailures - 1 + load.verifies;
    }
  }

  lemma ChargeKeepsIssues(c: Config, load: Load, rows: seq<Row>, now: int, flights: seq<Flight>, i: nat, k: nat)
    requires IssuesBounded(c, load, rows, now, flights)
    requires i < |flights| && k < |rows|
    ensures IssuesBounded(c, load, Charged(rows, k), now, flights[i := Done])
  {
    forall key
      ensures Total(Charged(rows, k), IssueWeight(c, key, now)) + Total(flights[i := Done], Issuing(key)) <= c.maxIssues - 1 + load.issues
    {
      TotalUpdate(rows, k, Charged(rows, k)[k], IssueWeight(c, key, now));
      TotalUpdate(flights, i, Done, Issuing(key));
      assert Total(rows, IssueWeight(c, key, now)) + Total(flights, Issuing(key)) <= c.maxIssues - 1 + load.issues;
    }
  }

  lemma ChargeKeepsOpen(load: Load, rows: seq<Row>, flights: seq<Flight>, i: nat, k: nat)
    requires OpenBounded(load, rows, flights)
    requires i < |flights| && k < |rows|
    ensures OpenBounded(load, Charged(rows, k), flights[i := Done])
  {
    forall key
      ensures Total(Charged(rows, k), OpenWeight(key)) + Total(flights[i := Done], Clearing(key)) <= load.issues
    {
      TotalUpdate(rows, k, Charged(rows, k)[k], OpenWeight(key));
      TotalUpdate(flights, i, Done, Clearing(key));
      assert Total(rows, OpenWeight(key)) + Total(flights, Clearing(key)) <= load.issues;
    }
  }

  lemma ChargeKeepsAttempts(c: Config, load: Load, t: Table, now: int, flights: seq<Flight>, i: nat, k: nat)
    requires Ordered(t, now) && AttemptsBounded(c, load, t.rows, flights)
    requires i < |flights| && k < |t.rows| && flights[i].Holding? && flights[i].row.id == t.rows[k].id && flights[i].row.attempts < c.maxAttempts
    ensures AttemptsBounded(c, load, Charged(t.rows, k), flights[i := Done])
  {
    forall j | 0 <= j < |t.rows|
      ensures Charged(t.rows, k)[j].attempts + Total(flights[i := Done], Charging(c, t.rows[j].id)) <= c.maxAttempts - 1 + load.verifies
    {
      TotalUpdate(flights, i, Done, Charging(c, t.rows[j].id));
    }
  }

  lemma ChargeKeepsRest(load: Load, t: Table, now: int, flights: seq<Flight>, wins: multiset<nat>, i: nat, k: nat)
    requires Ordered(t, now) && HoldersSound(t, flights) && WinsBounded(load, t, flights, wins)
    requires i < |flights| && k < |t.rows|
    ensures Ordered(Table(Charged(t.rows, k), t.nextId), now)
    ensures HoldersSound(Table(Charged(t.rows, k), t.nextId), flights[i := Done])
    ensures WinsBounded(load, Table(Charged(t.rows, k), t.nextId), flights[i := Done], wins)
  {
    MoveKeepsHolders(t, t.rows, flights, i, Done);
    MoveKeepsWins(load, t, t.rows, flights, wins, i, Done);
  }

  lemma ChargeKeepsInvariant(c: Config, load: Load, s: State, i: nat)
    requires Invariant(c, load, s) && i < |s.flights| && s.flights[i].Holding? && s.flights[i].row.attempts < c.maxAttempts
    ensures Invariant(c, load, Moved(s, IncrementAttempts(s.table.rows, s.flights[i].row.id), i, Done))
  {
    var id := s.flights[i].row.id;
    if k: nat :| k < |s.table.rows| && s.table.rows[k].id == id {
      IncrementIsPoint(s.table, s.now, k);
      ChargeKeepsFailures(c, load, s.table.rows, s.now, s.flights, i, k);
      ChargeKeepsIssues(c, load, s.table.rows, s.now, s.flights, i, k);
      ChargeKeepsOpen(load, s.table.rows, s.flights, i, k);
      ChargeKeepsAttempts(c, load, s.table, s.now, s.flights, i, k);
      ChargeKeepsRest(load, s.table, s.now, s.flights, s.wins, i, k);
    } else {
      assert IncrementAttempts(s.table.rows, id) == s.table.rows;
      MoveKeepsInvariant(c, load, s, s.table.rows, i, Done);
    }
  }

  // ---------- An issue passes its checks and clears the older rows ----------

  lemma AllowKeepsIssues(c: Config, load: Load, t: Table, now: int, flights: seq<Flight>, i: nat, key: Key)
    requires IssuesBounded(c, load, t.rows, now, flights) && i < |flights| && flights[i] == Entered(key)
    requires !RateExceeded(c, t, key, now) && Carries(load, flights[i := Allowed(key)])
    ensures IssuesBounded(c, load, t.rows, now, flights[i := Allowed(key)])
  {
    SumIsTotal(c, t.rows, key, now);
    forall k
      ensures Total(t.rows, IssueWeight(c, k, now)) + Total(flights[i := Allowed(key)], Issuing(k)) <= c.maxIssues - 1 + load.issues
    {
      TotalUpdate(flights, i, Allowed(key), Issuing(k));
      assert Total(t.rows, IssueWeight(c, k, now)) + Total(flights, Issuing(k)) <= c.maxIssues - 1 + load.issues;
    }
  }

  lemma AllowKeepsInvariant(c: Config, load: Load, s: State, i: nat, key: Key)
    requires Invariant(c, load, s) && i < |s.flights| && s.flights[i] == Entered(key)
    requires !RateExceeded(c, s.table, key, s.now) && Carries(load, s.flights[i := Allowed(key)])
    ensures Invariant(c, load, Moved(s, s.table.rows, i, Allowed(key)))
  {
    var rows := s.table.rows;
    MoveKeepsHolders(s.table, rows, s.flights, i, Allowed(key));
    MoveKeepsFailures(c, load, rows, rows, s.now, s.flights, i, Allowed(key));
    AllowKeepsIssues(c, load, s.table, s.now, s.flights, i, key);
    MoveKeepsOpen(load, rows, rows, s.flights, i, Allowed(key));
    MoveKeepsAttempts(c, load, rows, rows, s.flights, i, Allowed(key));
    MoveKeepsWins(load, s.table, rows, s.flights, s.wins, i, Allowed(key));
  }

  lemma ClearKeepsOpen(load: Load, rows: seq<Row>, now: int, flights: seq<Flight>, i: nat, key: Key)
    requires OpenBounded(load, rows, flights) && i < |flights| && flights[i] == Ready(key)
    requires Carries(load, flights[i := Cleared(key)])
    ensures OpenBounded(load, InvalidateActive(rows, key, now), flights[i := Cleared(key)])
  {
    var out := InvalidateActive(rows, key, now);
    var moved := flights[i := Cleared(key)];
    forall k
      ensures Total(out, OpenWeight(k)) + Total(moved, Clearing(k)) <= load.issues
    {
      TotalAtMost(out, OpenWeight(k), rows, OpenWeight(k));
      TotalUpdate(flights, i, Cleared(key), Clearing(k));
      assert Total(rows, OpenWeight(k)) + Total(flights, Clearing(k)) <= load.issues;
      if k == key {
        NoneOpen(out, key);
        TotalAtMost(moved, Clearing(key), moved, Issuing(key));
      }
    }
  }

  lemma NoneOpen(rows: seq<Row>, key: Key)
    requires forall i :: 0 <= i < |rows| ==> rows[i].key != key || rows[i].consumedAt.Some?
    ensures Total(rows, OpenWeight(key)) == 0
  {
    TotalZero(rows, OpenWeight(key));
  }

  lemma ClearKeepsInvariant(c: Config, load: Load, s: State, i: nat, key: Key)
    requires Invariant(c, load, s) && i < |s.flights| && s.flights[i] == Ready(key)
    requires Carries(load, s.flights[i := Cleared(key)])
    ensures Invariant(c, load, Moved(s, InvalidateActive(s.table.rows, key, s.now), i, Cleared(key)))
  {
    var out := InvalidateActive(s.table.rows, key, s.now);
    FadesKeepsOrder(s.table, out, s.now);
    MoveKeepsHolders(s.table, out, s.flights, i, Cleared(key));
    MoveKeepsFailures(c, load, s.table.rows, out, s.now, s.flights, i, Cleared(key));
    MoveKeepsIssues(c, load, s.table.rows, out, s.now, s.flights, i, Cleared(key));
    ClearKeepsOpen(load, s.table.rows, s.now, s.flights, i, key);
    MoveKeepsAttempts(c, load, s.table.rows, out, s.flights, i, Cleared(key));
    MoveKeepsWins(load, s.table, out, s.flights, s.wins, i, Cleared(key));
  }

  // ---------- An issue inserts its row ----------

  lemma InsertKeepsFailures(c: Config, load: Load, rows: seq<Row>, r: Row, now: int, flights: seq<Flight>, i: nat)
    requires FailuresBounded(c, load, rows, now, flights) && i < |flights| && r.attempts == 0
    ensures FailuresBounded(c, load, rows + [r], now, flights[i := Done])
  {
    forall key
      ensures Total(rows + [r], FailWeight(c, key, now)) + Total(flights[i := Done], Verifying(key)) <= c.maxFailures - 1 + load.verifies
    {
      TotalAppend(rows, r, FailWeight(c, key, now));
      TotalUpdate(flights, i, Done, Verifying(key));
      assert Total(rows, FailWeight(c, key, now)) + Total(flights, Verifying(key)) <= c.maxFailures - 1 + load.verifies;
    }
  }

  lemma InsertKeepsIssues(c: Config, load: Load, rows: seq<Row>, r: Row, now: int, flights: seq<Flight>, i: nat)
    requires IssuesBounded(c, load, rows, now, flights) && i < |flights| && flights[i] == Cleared(r.key)
    ensures IssuesBounded(c, load, rows + [r], now, flights[i := Done])
  {
    forall key
      ensures Total(rows + [r], IssueWeight(c, key, now)) + Total(flights[i := Done], Issuing(key)) <= c.maxIssues - 1 + load.issues
    {
      TotalAppend(rows, r, IssueWeight(c, key, now));
      TotalUpdate(flights, i, Done, Issuing(key));
      assert Total(rows, IssueWeight(c, key, now)) + Total(flights, Issuing(key)) <= c.maxIssues - 1 + load.issues;
    }
  }

  lemma InsertKeepsOpen(load: Load, rows: seq<Row>, r: Row, flights: seq<Flight>, i: nat)
    requires OpenBounded(load, rows, flights) && i < |flights| && flights[i] == Cleared(r.key)
    ensures OpenBounded(load, rows + [r], flights[i := Done])
  {
    forall key
      ensures Total(rows + [r], OpenWeight(key)) + Total(flights[i := Done], Clearing(key)) <= load.issues
    {
      TotalAppend(rows, r, OpenWeight(key));
      TotalUpdate(flights, i, Done, Clearing(key));
      assert Total(rows, OpenWeight(key)) + Total(flights, Clearing(key)) <= load.issues;
    }
  }

  /** No call holds a row that is yet to be inserted. */
  lemma FreshUnheld(c: Config, t: Table, flights: seq<Flight>)
    requires HoldersSound(t, flights)
    ensures Total(flights, Charging(c, t.nextId)) == 0
  {
    TotalZero(flights, Charging(c, t.nextId));
  }

  lemma InsertKeepsAttempts(c: Config, load: Load, t: Table, r: Row, flights: seq<Flight>, i: nat)
    requires AttemptsBounded(c, load, t.rows, flights) && HoldersSound(t, flights) && i < |flights|
    requires r.id == t.nextId && r.attempts == 0 && c.maxAttempts > 0
    ensures AttemptsBounded(c, load, t.rows + [r], flights[i := Done])
  {
    MoveKeepsAttempts(c, load, t.rows, t.rows, flights, i, Done);
    TotalUpdate(flights, i, Done, Charging(c, t.nextId));
    FreshUnheld(c, t, flights);
    var out := t.rows + [r];
    assert forall k :: 0 <= k < |t.rows| ==> out[k] == t.rows[k];
  }

  lemma InsertKeepsRest(load: Load, t: Table, r: Row, now: int, flights: seq<Flight>, wins: multiset<nat>, i: nat)
    requires Ordered(t, now) && HoldersSound(t, flights) && WinsBounded(load, t, flights, wins) && i < |flights|
    requires r.id == t.nextId && r.createdAt == now
    ensures Ordered(Table(t.rows + [r], t.nextId + 1), now)
    ensures HoldersSound(Table(t.rows + [r], t.nextId + 1), flights[i := Done])
    ensures WinsBounded(load, Table(t.rows + [r], t.nextId + 1), flights[i := Done], wins)
  {
    MoveKeepsHolders(t, t.rows, flights, i, Done);
    MoveKeepsWins(load, t, t.rows, flights, wins, i, Done);
  }

  lemma InsertKeepsInvariant(c: Config, load: Load, s: State, i: nat, key: Key, generated: string)
    requires Invariant(c, load, s) && c.maxAttempts > 0 && i < |s.flights| && s.flights[i] == Cleared(key)
    ensures Invariant(c, load, Insert(c, s, i, key, generated))
  {
    var r := NewRow(c, s.table.nextId, key, generated, s.now);
    InsertKeepsFailures(c, load, s.table.rows, r, s.now, s.flights, i);
    InsertKeepsIssues(c, load, s.table.rows, r, s.now, s.flights, i);
    InsertKeepsOpen(load, s.table.rows, r, s.flights, i);
    InsertKeepsAttempts(c, load, s.table, r, s.flights, i);
    InsertKeepsRest(load, s.table, r, s.now, s.flights, s.wins, i);
  }

  // ---------- A call begins ----------

  lemma BeginKeepsFailures(c: Config, load: Load, t: Table, now: int, flights: seq<Flight>, f: Flight)
    requires FailuresBounded(c, load, t.rows, now, flights) && Carries(load, flights + [f])
    requires (f.Checked? && !IsLocked(c, t, f.key, now)) || f.Entered?
    ensures FailuresBounded(c, load, t.rows, now, flights + [f])
  {
    SumIsTotal(c, t.rows, f.key, now);
    forall key
      ensures Total(t.rows, FailWeight(c, key, now)) + Total(flights + [f], Verifying(key)) <= c.maxFailures - 1 + load.verifies
    {
      TotalAppend(flights, f, Verifying(key));
      assert Total(t.rows, FailWeight(c, key, now)) + Total(flights, Verifying(key)) <= c.maxFailures - 1 + load.verifies;
    }
  }

  lemma BeginKeepsIssues(c: Config, load: Load, rows: seq<Row>, now: int, flights: seq<Flight>, f: Flight)
    requires IssuesBounded(c, load, rows, now, flights) && OpenBounded(load, rows, flights) && (f.Checked? || f.Entered?)
    ensures IssuesBounded(c, load, rows, now, flights + [f]) && OpenBounded(load, rows, flights + [f])
  {
    forall key
      ensures Total(flights + [f], Issuing(key)) == Total(flights, Issuing(key))
      ensures Total(flights + [f], Clearing(key)) == Total(flights, Clearing(key))
    {
      TotalAppend(flights, f, Issuing(key));
      TotalAppend(flights, f, Clearing(key));
    }
  }

  lemma BeginKeepsRest(c: Config, load: Load, t: Table, flights: seq<Flight>, wins: multiset<nat>, f: Flight)
    requires AttemptsBounded(c, load, t.rows, flights) && WinsBounded(load, t, flights, wins) && HoldersSound(t, flights) && !f.Holding?
    ensures AttemptsBounded(c, load, t.rows, flights + [f])
    ensures WinsBounded(load, t, flights + [f], wins)
    ensures HoldersSound(t, flights + [f])
  {
    forall id
      ensures Total(flights + [f], Charging(c, id)) == Total(flights, Charging(c, id))
      ensures Total(flights + [f], HoldingRow(id)) == Total(flights, HoldingRow(id))
    {
      TotalAppend(flights, f, Charging(c, id));
      TotalAppend(flights, f, HoldingRow(id));
    }
  }

  lemma BeginKeepsInvariant(c: Config, load: Load, s: State, f: Flight)
    requires Invariant(c, load, s) && (f.Checked? || f.Entered?) && Carries(load, Begin(c, s, f.key, f).flights)
    ensures Invariant(c, load, Begin(c, s, f.key, f))
  {
    if !IsLocked(c, s.table, f.key, s.now) {
      BeginKeepsFailures(c, load, s.table, s.now, s.flights, f);
      BeginKeepsIssues(c, load, s.table.rows, s.now, s.flights, f);
      BeginKeepsRest(c, load, s.table, s.flights, s.wins, f);
    }
  }

  // ---------- Pruning and waiting ----------

  lemma SuffixKeepsBounds(c: Config, load: Load, rows: seq<Row>, m: nat, now: int, flights: seq<Flight>)
    requires FailuresBounded(c, load, rows, now, flights) && IssuesBounded(c, load, rows, now, flights) && OpenBounded(load, rows, flights)
    requires m <= |rows|
    ensures FailuresBounded(c, load, rows[m..], now, flights) && IssuesBounded(c, load, rows[m..], now, flights) && OpenBounded(load, rows[m..], flights)
  {
    forall key
      ensures Total(rows[m..], FailWeight(c, key, now)) <= Total(rows, FailWeight(c, key, now))
      ensures Total(rows[m..], IssueWeight(c, key, now)) <= Total(rows, IssueWeight(c, key, now))
      ensures Total(rows[m..], OpenWeight(key)) <= Total(rows, OpenWeight(key))
    {
      TotalSuffix(rows, m, FailWeight(c, key, now));
      TotalSuffix(rows, m, IssueWeight(c, key, now));
      TotalSuffix(rows, m, OpenWeight(key));
    }
  }

  lemma SuffixKeepsRest(c: Config, load: Load, t: Table, m: nat, now: int, flights: seq<Flight>, wins: multiset<nat>)
    requires Ordered(t, now) && HoldersSound(t, flights) && AttemptsBounded(c, load, t.rows, flights) && WinsBounded(load, t, flights, wins)
    requires m <= |t.rows|
    ensures Ordered(Table(t.rows[m..], t.nextId), now) && HoldersSound(Table(t.rows[m..], t.nextId), flights)
    ensures AttemptsBounded(c, load, t.rows[m..], flights) && WinsBounded(load, Table(t.rows[m..], t.nextId), flights, wins)
  {
  }

  lemma SuffixKeepsInvariant(c: Config, load: Load, s: State, m: nat)
    requires Invariant(c, load, s) && m <= |s.table.rows|
    ensures Invariant(c, load, s.(table := Table(s.table.rows[m..], s.table.nextId)))
  {
    SuffixKeepsBounds(c, load, s.table.rows, m, s.now, s.flights);
    SuffixKeepsRest(c, load, s.table, m, s.now, s.flights, s.wins);
  }

  lemma PruneIsSuffix(c: Config, t: Table, now: int) returns (m: nat)
    requires Ordered(t, now)
    ensures m <= |t.rows| && PruneStep(c, t, now) == Table(t.rows[m..], t.nextId)
  {
    m := DeleteDropsPrefix(t.rows, now - Ms(Retention(c)));
  }

  lemma PruneKeepsInvariant(c: Config, load: Load, s: State)
    requires Invariant(c, load, s)
    ensures Invariant(c, load, s.(table := PruneStep(c, s.table, s.now)))
  {
    var m := PruneIsSuffix(c, s.table, s.now);
    SuffixKeepsInvariant(c, load, s, m);
  }

  lemma WaitKeepsInvariant(c: Config, load: Load, s: State, until: int)
    requires Invariant(c, load, s) && until >= s.now
    ensures Invariant(c, load, s.(now := until))
  {
    var rows := s.table.rows;
    forall key
      ensures Total(rows, FailWeight(c, key, until)) <= Total(rows, FailWeight(c, key, s.now))
      ensures Total(rows, IssueWeight(c, key, until)) <= Total(rows, IssueWeight(c, key, s.now))
    {
      TotalAtMost(rows, FailWeight(c, key, until), rows, FailWeight(c, key, s.now));
      TotalAtMost(rows, IssueWeight(c, key, until), rows, IssueWeight(c, key, s.now));
    }
  }

  // ---------- Every run ----------

  lemma CheckedAdvances(c: Config, load: Load, s: State, i: nat, generated: string)
    requires Invariant(c, load, s) && i < |s.flights| && s.flights[i].Checked?
    requires Carries(load, AdvanceFlight(c, s, i, generated).flights)
    ensures Invariant(c, load, AdvanceFlight(c, s, i, generated))
  {
    var f := s.flights[i];
    if Active(s.table.rows, f.key, s.now).None? {
      MoveKeepsInvariant(c, load, s, s.table.rows, i, Done);
    } else {
      var k := ActiveIndex(s.table.rows, f.key, s.now);
      TakeKeepsInvariant(c, load, s, i, f.code, k);
    }
  }

  lemma HoldingAdvances(c: Config, load: Load, s: State, i: nat, generated: string)
    requires Invariant(c, load, s) && i < |s.flights| && s.flights[i].Holding?
    ensures Invariant(c, load, AdvanceFlight(c, s, i, generated))
  {
    var f := s.flights[i];
    if f.row.attempts >= c.maxAttempts {
      MoveKeepsInvariant(c, load, s, MarkConsumed(s.table.rows, f.row.id, s.now), i, Done);
    } else if Digest(f.code) != f.row.codeHash {
      ChargeKeepsInvariant(c, load, s, i);
    } else {
      WinKeepsInvariant(c, load, s, i);
    }
  }

  lemma IssueAdvances(c: Config, load: Load, s: State, i: nat, generated: string)
    requires Invariant(c, load, s) && c.maxAttempts > 0 && i < |s.flights| && !s.flights[i].Checked? && !s.flights[i].Holding?
    requires Carries(load, AdvanceFlight(c, s, i, generated).flights)
    ensures Invariant(c, load, AdvanceFlight(c, s, i, generated))
  {
    match s.flights[i] {
      case Entered(key) =>
        if RateExceeded(c, s.table, key, s.now) {
          MoveKeepsInvariant(c, load, s, s.table.rows, i, Done);
        } else {
          AllowKeepsInvariant(c, load, s, i, key);
        }
      case Allowed(key) =>
        MoveKeepsInvariant(c, load, s, s.table.rows, i, if CooldownLeft(c, s.table, key, s.now).Some? then Done else Ready(key));
      case Ready(key) => ClearKeepsInvariant(c, load, s, i, key);
      case Cleared(key) => InsertKeepsInvariant(c, load, s, i, key, generated);
      case Done =>
    }
  }

  lemma StepKeepsInvariant(c: Config, load: Load, s: State, step: Step)
    requires ValidConfig(c) && Invariant(c, load, s) && Carries(load, Apply(c, s, step).flights)
    ensures Invariant(c, load, Apply(c, s, step))
  {
    match step {
      case BeginVerify(key, code) => BeginKeepsInvariant(c, load, s, Checked(key, code));
      case BeginIssue(key) => BeginKeepsInvariant(c, load, s, Entered(key));
      case Advance(i, generated) =>
        if i < |s.flights| {
          if s.flights[i].Checked? {
            CheckedAdvances(c, load, s, i, generated);
          } else if s.flights[i].Holding? {
            HoldingAdvances(c, load, s, i, generated);
          } else {
            IssueAdvances(c, load, s, i, generated);
          }
        }
      case Prune => PruneKeepsInvariant(c, load, s);
      case Wait(until) =>
        if until >= s.now {
          WaitKeepsInvariant(c, load, s, until);
        }
    }
  }

  lemma StartInvariant(c: Config, load: Load, start: int)
    requires ValidConfig(c)
    ensures Invariant(c, load, State(EMPTY, start, [], multiset{}))
  {
  }

  lemma {:induction false} RunKeepsInvariant(c: Config, load: Load, start: int, steps: seq<Step>)
    requires ValidConfig(c) && LoadAtMost(c, start, steps, load)
    ensures Invariant(c, load, Run(c, start, steps))
  {
    if steps == [] {
      StartInvariant(c, load, start);
    } else {
      var n := |steps| - 1;
      forall m | 0 <= m <= n
        ensures Carries(load, Run(c, start, steps[..n][..m]).flights)
      {
        assert steps[..n][..m] == steps[..m];
      }
      RunKeepsInvariant(c, load, start, steps[..n]);
      assert steps[..|steps|] == steps;
      StepKeepsInvariant(c, load, Run(c, start, steps[..n]), steps[n]);
    }
  }

  lemma WindowsBounded(c: Config, load: Load, s: State, key: Key)
    requires Invariant(c, load, s)
    ensures SumSince(s.table.rows, key, s.now - Ms(c.lockWindow)) <= c.maxFailures - 1 + load.verifies
    ensures CountSince(s.table.rows, key, s.now - Ms(c.issueWindow)) <= c.maxIssues - 1 + load.issues
    ensures Total(s.table.rows, OpenWeight(key)) <= load.issues
  {
    SumIsTotal(c, s.table.rows, key, s.now);
    assert Total(s.table.rows, FailWeight(c, key, s.now)) + Total(s.flights, Verifying(key)) <= c.maxFailures - 1 + load.verifies;
    assert Total(s.table.rows, IssueWeight(c, key, s.now)) + Total(s.flights, Issuing(key)) <= c.maxIssues - 1 + load.issues;
    assert Total(s.table.rows, OpenWeight(key)) + Total(s.flights, Clearing(key)) <= load.issues;
  }

  ghost predicate WindowsHold(c: Config, load: Load, s: State, key: Key) {
    && SumSince(s.table.rows, key, s.now - Ms(c.lockWindow)) <= c.maxFailures - 1 + load.verifies
    && CountSince(s.table.rows, key, s.now - Ms(c.issueWindow)) <= c.maxIssues - 1 + load.issues
    && Total(s.table.rows, OpenWeight(key)) <= load.issues
  }

  lemma WindowsOf(c: Config, load: Load, s: State, key: Key)
    requires Invariant(c, load, s)
    ensures WindowsHold(c, load, s, key)
  {
    WindowsBounded(c, load, s, key);
  }

  lemma RunWindows(c: Config, load: Load, start: int, steps: seq<Step>, key: Key)
    requires ValidConfig(c) && LoadAtMost(c, start, steps, load)
    ensures WindowsHold(c, load, Run(c, start, steps), key)
  {
    RunKeepsInvariant(c, load, start, steps);
    WindowsOf(c, load, Run(c, start, steps), key);
  }

  lemma CodesBounded(c: Config, load: Load, s: State, id: nat)
    requires Invariant(c, load, s)
    ensures forall i :: 0 <= i < |s.table.rows| ==> s.table.rows[i].attempts <= c.maxAttempts - 1 + load.verifies
    ensures s.wins[id] <= load.verifies
  {
    assert s.wins[id] + Total(s.flights, HoldingRow(id)) <= load.verifies;
  }

  /**
   * With at most so many verifications per phone and purpose between lock check and finish,
   * the attempts in the lock window exceed the cap by at most all but one of them.
   */
  lemma FailuresOverrun(c: Config, load: Load, start: int, steps: seq<Step>, key: Key)
    requires ValidConfig(c) && LoadAtMost(c, start, steps, load)
    ensures var s := Run(c, start, steps);
            SumSince(s.table.rows, key, s.now - Ms(c.lockWindow)) <= c.maxFailures - 1 + load.verifies
  {
    RunWindows(c, load, start, steps, key);
  }

  /** Likewise for the issues in the issue window. */
  lemma IssuesOverrun(c: Config, load: Load, start: int, steps: seq<Step>, key: Key)
    requires ValidConfig(c) && LoadAtMost(c, start, steps, load)
    ensures var s := Run(c, start, steps);
            CountSince(s.table.rows, key, s.now - Ms(c.issueWindow)) <= c.maxIssues - 1 + load.issues
  {
    RunWindows(c, load, start, steps, key);
  }

  /** At most as many codes of a phone and purpose are open together as issues overlap. */
  lemma OpenOverrun(c: Config, load: Load, start: int, steps: seq<Step>, key: Key)
    requires ValidConfig(c) && LoadAtMost(c, start, steps, load)
    ensures Total(Run(c, start, steps).table.rows, OpenWeight(key)) <= load.issues
  {
    RunWindows(c, load, start, steps, key);
  }

  /** Likewise for the attempts on one code, and for how often one code is redeemed. */
  lemma CodeOverrun(c: Config, load: Load, start: int, steps: seq<Step>, id: nat)
    requires ValidConfig(c) && LoadAtMost(c, start, steps, load)
    ensures var s := Run(c, start, steps);
            && (forall i :: 0 <= i < |s.table.rows| ==> s.table.rows[i].attempts <= c.maxAttempts - 1 + load.verifies)
            && s.wins[id] <= load.verifies
  {
    RunKeepsInvariant(c, load, start, steps);
    CodesBounded(c, load, Run(c, start, steps), id);
  }

  // ---------- One call at a time ----------

  function Alone(t: Table, now: int): State {
    State(t, now, [], multiset{})
  }

  /** A verification that nothing interleaves with is the atomic one. */
  lemma VerifyAlone(c: Config, t: Table, key: Key, code: string, now: int)
    ensures var s := Apply(c, Apply(c, Apply(c, Alone(t, now), BeginVerify(key, code)), Advance(0, "")), Advance(0, ""));
            && s.table == VerifyStep(c, t, key, code, now).0
            && (s.wins != multiset{} <==> VerifyStep(c, t, key, code, now).1.Verified?)
            && forall f :: f in s.flights ==> f.Done?
  {
  }

  /** So is an issue. */
  lemma IssueAlone(c: Config, t: Table, key: Key, generated: string, now: int)
    ensures var g := Advance(0, generated);
            var s := Apply(c, Apply(c, Apply(c, Apply(c, Apply(c, Alone(t, now), BeginIssue(key)), g), g), g), g);
            && s.table == IssueStep(c, t, key, generated, now).0 && s.now == now
            && forall f :: f in s.flights ==> f.Done?
  {
  }
}
