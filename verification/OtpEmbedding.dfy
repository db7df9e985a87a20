/**
 * Runs of atomic calls are among the overlapping ones: statement by statement, one call after
 * another, with at most one verification and one issue in flight.
 */
module OtpEmbedding {
  import opened OtpTable
  import opened OtpService
  import opened Totals
  import opened OtpInterleaving
  import R = OtpRuns

  // ---------- Runs within a load ----------

  /** A claim about steps and the state they lead to, kept abstract while the run is built. */
  type Claim = (seq<Step>, State) -> bool

  /** The claim survives every further step that stays within the load. */
  ghost predicate Closed(c: Config, load: Load, reach: Claim) {
    forall steps: seq<Step>, s: State, step: Step ::
      reach(steps, s) && Carries(load, Apply(c, s, step).flights) ==> reach(steps + [step], Apply(c, s, step))
  }

  lemma Extend(c: Config, load: Load, reach: Claim, steps: seq<Step>, s: State, step: Step)
    requires Closed(c, load, reach) && reach(steps, s) && Carries(load, Apply(c, s, step).flights)
    ensures reach(steps + [step], Apply(c, s, step))
  {
  }

  ghost predicate Reaches(c: Config, start: int, load: Load, steps: seq<Step>, s: State) {
    LoadAtMost(c, start, steps, load) && Run(c, start, steps) == s
  }

  lemma ReachesOn(c: Config, start: int, load: Load, steps: seq<Step>, s: State, step: Step)
    requires Reaches(c, start, load, steps, s) && Carries(load, Apply(c, s, step).flights)
    ensures Reaches(c, start, load, steps + [step], Apply(c, s, step))
  {
    var all := steps + [step];
    assert all[..|steps|] == steps;
    assert Run(c, start, all) == Apply(c, s, step);
    forall n | 0 <= n <= |all|
      ensures Carries(load, Run(c, start, all[..n]).flights)
    {
      if n <= |steps| {
        assert all[..n] == steps[..n];
      } else {
        assert all[..n] == all;
      }
    }
  }

  // ---------- Finished calls ----------

  function Many(f: Flight, n: nat): seq<Flight> {
    seq(n, i requires 0 <= i < n => f)
  }

  /** Finished calls weigh nothing. */
  lemma {:induction false} TailWeighs(done: nat, tail: seq<Flight>, weight: Flight -> nat)
    requires weight(Done) == 0 && forall f: Flight :: weight(f) <= 1
    ensures Total(Many(Done, done) + tail, weight) <= |tail|
    decreases |tail|
  {
    if tail == [] {
      TotalZero(Many(Done, done) + tail, weight);
    } else {
      var n := |tail| - 1;
      assert (Many(Done, done) + tail)[..done + n] == Many(Done, done) + tail[..n];
      TailWeighs(done, tail[..n], weight);
    }
  }

  /** Few enough calls for the load, or none of them an issue. */
  ghost predicate Light(load: Load, flights: seq<Flight>) {
    |flights| <= load.verifies && (|flights| <= load.issues || forall f :: f in flights ==> f.Checked? || f.Holding? || f.Done?)
  }

  lemma TailCarries(load: Load, done: nat, tail: seq<Flight>)
    requires Light(load, tail)
    ensures Carries(load, Many(Done, done) + tail)
  {
    var flights := Many(Done, done) + tail;
    forall key
      ensures Total(flights, Verifying(key)) <= load.verifies && Total(flights, Issuing(key)) <= load.issues
    {
      TailWeighs(done, tail, Verifying(key));
      TailWeighs(done, tail, Issuing(key));
      if |tail| > load.issues {
        TotalZero(flights, Issuing(key));
      }
    }
  }

  /** The state with `n` finished calls before its own, and the successes they had. */
  function Onto(s: State, n: nat, wins: multiset<nat>): State {
    State(s.table, s.now, Many(Done, n) + s.flights, wins + s.wins)
  }

  function Shifted(step: Step, n: nat): Step {
    match step
    case Advance(i, generated) => Advance(n + i, generated)
    case _ => step
  }

  /** Finished calls make no difference to a step. */
  lemma OntoStep(c: Config, s: State, step: Step, n: nat, wins: multiset<nat>)
    ensures Apply(c, Onto(s, n, wins), Shifted(step, n)) == Onto(Apply(c, s, step), n, wins)
  {
    match step {
      case Advance(i, generated) => OntoAnyAdvance(c, s, i, generated, n, wins);
      case BeginVerify(key, code) => OntoBegin(s, Checked(key, code), n);
      case BeginIssue(key) => OntoBegin(s, Entered(key), n);
      case _ =>
    }
  }

  lemma OntoBegin(s: State, f: Flight, n: nat)
    ensures Many(Done, n) + (s.flights + [f]) == (Many(Done, n) + s.flights) + [f]
  {
  }

  lemma AdvanceTouchesOne(c: Config, s: State, i: nat, generated: string)
    requires i < |s.flights|
    ensures var out := AdvanceFlight(c, s, i, generated);
            |out.flights| == |s.flights| && out.flights == s.flights[i := out.flights[i]] && out.now == s.now
  {
  }

  /** The success a statement records, if any. */
  function Gain(c: Config, f: Flight): multiset<nat> {
    if f.Holding? && f.row.attempts < c.maxAttempts && Digest(f.code) == f.row.codeHash then multiset{f.row.id} else multiset{}
  }

  lemma AdvanceGains(c: Config, s: State, i: nat, generated: string)
    requires i < |s.flights|
    ensures AdvanceFlight(c, s, i, generated).wins == s.wins + Gain(c, s.flights[i])
  {
  }

  /** What a statement does depends on the table, the instant and its own call. */
  lemma AdvanceIsLocal(c: Config, s: State, i: nat, v: State, j: nat, generated: string)
    requires i < |s.flights| && j < |v.flights| && s.flights[i] == v.flights[j] && s.table == v.table && s.now == v.now
    ensures AdvanceFlight(c, s, i, generated).table == AdvanceFlight(c, v, j, generated).table
    ensures |AdvanceFlight(c, s, i, generated).flights| == |s.flights| && |AdvanceFlight(c, v, j, generated).flights| == |v.flights|
    ensures AdvanceFlight(c, s, i, generated).flights[i] == AdvanceFlight(c, v, j, generated).flights[j]
  {
  }

  lemma OntoAdvance(c: Config, s: State, i: nat, generated: string, n: nat, wins: multiset<nat>)
    requires i < |s.flights|
    ensures AdvanceFlight(c, Onto(s, n, wins), n + i, generated) == Onto(AdvanceFlight(c, s, i, generated), n, wins)
  {
    var v := Onto(s, n, wins);
    var out, all := AdvanceFlight(c, s, i, generated), AdvanceFlight(c, v, n + i, generated);
    AdvanceTouchesOne(c, s, i, generated);
    AdvanceTouchesOne(c, v, n + i, generated);
    OntoUpdate(s.flights, i, n, out.flights[i]);
    AdvanceIsLocal(c, s, i, v, n + i, generated);
    AdvanceGains(c, s, i, generated);
    AdvanceGains(c, v, n + i, generated);
    SameState(all, out, n, wins);
  }

  lemma OntoAnyAdvance(c: Config, s: State, i: nat, generated: string, n: nat, wins: multiset<nat>)
    ensures Apply(c, Onto(s, n, wins), Advance(n + i, generated)) == Onto(Apply(c, s, Advance(i, generated)), n, wins)
  {
    if i < |s.flights| {
      OntoAdvance(c, s, i, generated, n, wins);
      assert n + i < |Onto(s, n, wins).flights|;
    }
  }

  lemma SameState(all: State, out: State, n: nat, wins: multiset<nat>)
    requires all.table == out.table && all.now == out.now && all.flights == Many(Done, n) + out.flights && all.wins == wins + out.wins
    ensures all == Onto(out, n, wins)
  {
  }

  lemma OntoUpdate(flights: seq<Flight>, i: nat, n: nat, f: Flight)
    requires i < |flights|
    ensures (Many(Done, n) + flights)[n + i] == flights[i]
    ensures (Many(Done, n) + flights)[n + i := f] == Many(Done, n) + flights[i := f]
  {
  }

  // ---------- One call, step by step ----------

  lemma ExtendOnto(c: Config, load: Load, reach: Claim, steps: seq<Step>, s: State, step: Step, n: nat, wins: multiset<nat>)
    requires Closed(c, load, reach) && reach(steps, Onto(s, n, wins)) && Light(load, Apply(c, s, step).flights)
    ensures reach(steps + [Shifted(step, n)], Onto(Apply(c, s, step), n, wins))
  {
    OntoStep(c, s, step, n, wins);
    TailCarries(load, n, Apply(c, s, step).flights);
    Extend(c, load, reach, steps, Onto(s, n, wins), Shifted(step, n));
  }

  /** `times` statements of the one call in flight. */
  function Continue(c: Config, s: State, generated: string, times: nat): State {
    if times == 0 then s else Apply(c, Continue(c, s, generated, times - 1), Advance(0, generated))
  }

  lemma ContinueKeepsLength(c: Config, s: State, generated: string)
    ensures |Apply(c, s, Advance(0, generated)).flights| == |s.flights|
  {
    if s.flights != [] {
      AdvanceTouchesOne(c, s, 0, generated);
    }
  }

  lemma ContinueOnce(c: Config, load: Load, reach: Claim, steps: seq<Step>, s: State, generated: string, n: nat, wins: multiset<nat>)
    requires Closed(c, load, reach) && load.verifies >= 1 && load.issues >= 1
    requires reach(steps, Onto(s, n, wins)) && |s.flights| <= 1
    ensures reach(steps + [Advance(n, generated)], Onto(Apply(c, s, Advance(0, generated)), n, wins))
    ensures |Apply(c, s, Advance(0, generated)).flights| <= 1
  {
    ContinueKeepsLength(c, s, generated);
    ExtendOnto(c, load, reach, steps, s, Advance(0, generated), n, wins);
  }

  lemma {:induction false} Continued(c: Config, load: Load, reach: Claim, steps: seq<Step>, s: State, generated: string, times: nat, n: nat, wins: multiset<nat>)
    returns (more: seq<Step>)
    requires Closed(c, load, reach) && load.verifies >= 1 && load.issues >= 1
    requires reach(steps, Onto(s, n, wins)) && |s.flights| <= 1
    ensures reach(more, Onto(Continue(c, s, generated, times), n, wins)) && |Continue(c, s, generated, times).flights| <= 1
  {
    if times == 0 {
      more := steps;
    } else {
      more := Continued(c, load, reach, steps, s, generated, times - 1, n, wins);
      ContinueOnce(c, load, reach, more, Continue(c, s, generated, times - 1), generated, n, wins);
      more := more + [Advance(n, generated)];
    }
  }

  /** A call from its lock check to its last statement; further statements of a finished call do nothing. */
  function Whole(c: Config, t: Table, op: R.Op, now: int): State {
    match op
    case Verify(key, code) => Continue(c, Apply(c, Alone(t, now), BeginVerify(key, code)), "", 2)
    case Issue(key, generated) => Continue(c, Apply(c, Alone(t, now), BeginIssue(key)), generated, 5)
    case Prune => Apply(c, Alone(t, now), Step.Prune)
  }

  /** What the atomic call leaves in the table. */
  function Atomic(c: Config, t: Table, op: R.Op, now: int): Table {
    match op
    case Verify(key, code) => VerifyStep(c, t, key, code, now).0
    case Issue(key, generated) => IssueStep(c, t, key, generated, now).0
    case Prune => PruneStep(c, t, now)
  }

  lemma WholeIsAtomic(c: Config, t: Table, op: R.Op, now: int)
    ensures var s := Whole(c, t, op, now);
            s.table == Atomic(c, t, op, now) && s.now == now && s.flights == Many(Done, |s.flights|)
  {
    match op {
      case Verify(key, code) => WholeVerify(c, t, key, code, now);
      case Issue(key, generated) => WholeIssue(c, t, key, generated, now);
      case Prune =>
    }
  }

  lemma WholeVerify(c: Config, t: Table, key: Key, code: string, now: int)
    ensures var s := Continue(c, Apply(c, Alone(t, now), BeginVerify(key, code)), "", 2);
            s.table == VerifyStep(c, t, key, code, now).0 && s.now == now && s.flights == Many(Done, |s.flights|)
  {
    var s0 := Apply(c, Alone(t, now), BeginVerify(key, code));
    var s1 := Apply(c, s0, Advance(0, ""));
    assert Continue(c, s0, "", 1) == s1 by { assert Continue(c, s0, "", 0) == s0; }
    assert Continue(c, s0, "", 2) == Apply(c, s1, Advance(0, ""));
    VerifyAlone(c, t, key, code, now);
  }

  lemma Unrolled(c: Config, s: State, g: string)
    ensures Continue(c, s, g, 5)
         == Apply(c, Apply(c, Apply(c, Apply(c, Apply(c, s, Advance(0, g)), Advance(0, g)), Advance(0, g)), Advance(0, g)), Advance(0, g))
  {
    assert Continue(c, s, g, 1) == Apply(c, s, Advance(0, g));
    assert Continue(c, s, g, 3) == Apply(c, Apply(c, Apply(c, s, Advance(0, g)), Advance(0, g)), Advance(0, g));
  }

  lemma WholeIssue(c: Config, t: Table, key: Key, generated: string, now: int)
    ensures var s := Continue(c, Apply(c, Alone(t, now), BeginIssue(key)), generated, 5);
            s.table == IssueStep(c, t, key, generated, now).0 && s.now == now && s.flights == Many(Done, |s.flights|)
  {
    var s0 := Apply(c, Alone(t, now), BeginIssue(key));
    Unrolled(c, s0, generated);
    IssueAlone(c, t, key, generated, now);
    AllDone(Continue(c, s0, generated, 5).flights);
  }

  lemma AllDone(flights: seq<Flight>)
    requires forall f :: f in flights ==> f.Done?
    ensures flights == Many(Done, |flights|)
  {
    assert forall i :: 0 <= i < |flights| ==> flights[i] in flights;
  }

  lemma Finished(s: State, n: nat, wins: multiset<nat>)
    requires s.flights == Many(Done, |s.flights|)
    ensures Onto(s, n, wins) == State(s.table, s.now, Many(Done, n + |s.flights|), wins + s.wins)
  {
  }

  /** Every call so far has finished. */
  function Rest(t: Table, now: int, n: nat, wins: multiset<nat>): State {
    State(t, now, Many(Done, n), wins)
  }

  /** The steps of one call, made at `at`. */
  lemma Simulate(c: Config, load: Load, reach: Claim, steps: seq<Step>, t: Table, now: int, op: R.Op, at: int, n: nat, wins: multiset<nat>)
    returns (more: seq<Step>, m: nat, won: multiset<nat>)
    requires Closed(c, load, reach) && load.verifies >= 1 && load.issues >= 1
    requires now <= at && reach(steps, Rest(t, now, n, wins))
    ensures reach(more, Rest(Atomic(c, t, op, at), at, m, won))
  {
    assert Onto(Alone(t, now), n, wins) == Rest(t, now, n, wins);
    ExtendOnto(c, load, reach, steps, Alone(t, now), Wait(at), n, wins);
    more := steps + [Wait(at)];
    more := Statements(c, load, reach, more, t, op, at, n, wins);
    var s := Whole(c, t, op, at);
    WholeIsAtomic(c, t, op, at);
    Finished(s, n, wins);
    m, won := n + |s.flights|, wins + s.wins;
  }

  lemma Statements(c: Config, load: Load, reach: Claim, steps: seq<Step>, t: Table, op: R.Op, at: int, n: nat, wins: multiset<nat>)
    returns (more: seq<Step>)
    requires Closed(c, load, reach) && load.verifies >= 1 && load.issues >= 1
    requires reach(steps, Onto(Alone(t, at), n, wins))
    ensures reach(more, Onto(Whole(c, t, op, at), n, wins))
  {
    var begin := match op
      case Verify(key, code) => BeginVerify(key, code)
      case Issue(key, _) => BeginIssue(key)
      case Prune => Step.Prune;
    ExtendOnto(c, load, reach, steps, Alone(t, at), begin, n, wins);
    more := steps + [begin];
    match op {
      case Verify(key, code) => more := Continued(c, load, reach, more, Apply(c, Alone(t, at), begin), "", 2, n, wins);
      case Issue(key, generated) => more := Continued(c, load, reach, more, Apply(c, Alone(t, at), begin), generated, 5, n, wins);
      case Prune =>
    }
  }

  // ---------- Whole runs ----------

  /** Statement by statement, some steps within the load reach the same table at the same instant. */
  ghost predicate Embeds(reach: Claim, w: R.World) {
    exists steps: seq<Step>, n: nat, wins: multiset<nat> :: reach(steps, Rest(w.table, w.now, n, wins))
  }

  lemma AtomicApply(c: Config, w: R.World, call: R.Call)
    ensures R.Apply(c, w, call).table == Atomic(c, w.table, call.op, call.at) && R.Apply(c, w, call).now == call.at
  {
  }

  lemma EmbedsOn(c: Config, load: Load, reach: Claim, w: R.World, call: R.Call)
    requires Closed(c, load, reach) && load.verifies >= 1 && load.issues >= 1
    requires Embeds(reach, w) && w.now <= call.at
    ensures Embeds(reach, R.Apply(c, w, call))
  {
    var steps: seq<Step>, n: nat, wins: multiset<nat> :| reach(steps, Rest(w.table, w.now, n, wins));
    AtomicApply(c, w, call);
    var more, m, won := Simulate(c, load, reach, steps, w.table, w.now, call.op, call.at, n, wins);
  }

  lemma ReachesClosed(c: Config, start: int, load: Load) returns (reach: Claim)
    requires load.verifies >= 1 && load.issues >= 1
    ensures forall steps: seq<Step>, s: State :: reach(steps, s) <==> Reaches(c, start, load, steps, s)
    ensures Closed(c, load, reach) && reach([], Rest(EMPTY, start, 0, multiset{}))
  {
    reach := (steps, s) => Reaches(c, start, load, steps, s);
    forall steps: seq<Step>, s: State, step: Step | reach(steps, s) && Carries(load, Apply(c, s, step).flights)
      ensures reach(steps + [step], Apply(c, s, step))
    {
      ReachesOn(c, start, load, steps, s, step);
    }
    TailCarries(load, 0, []);
    assert Many(Done, 0) + [] == [];
    assert Rest(EMPTY, start, 0, multiset{}) == State(EMPTY, start, [], multiset{});
  }

  lemma {:induction false} RunEmbeds(c: Config, start: int, load: Load, reach: Claim, calls: seq<R.Call>)
    requires Closed(c, load, reach) && load.verifies >= 1 && load.issues >= 1 && reach([], Rest(EMPTY, start, 0, multiset{}))
    requires R.Chronological(start, calls)
    ensures Embeds(reach, R.Run(c, start, calls)) && R.Run(c, start, calls).now == if calls == [] then start else calls[|calls| - 1].at
  {
    if calls != [] {
      var n := |calls| - 1;
      RunEmbeds(c, start, load, reach, calls[..n]);
      EmbedsOn(c, load, reach, R.Run(c, start, calls[..n]), calls[n]);
      AtomicApply(c, R.Run(c, start, calls[..n]), calls[n]);
    }
  }

  /** Whatever atomic calls do to the table, statements with at most one call of each kind in flight do too. */
  lemma AtomicRunsEmbed(c: Config, start: int, calls: seq<R.Call>) returns (steps: seq<Step>)
    requires R.Chronological(start, calls)
    ensures LoadAtMost(c, start, steps, Load(1, 1))
    ensures Run(c, start, steps).table == R.Run(c, start, calls).table && Run(c, start, steps).now == R.Run(c, start, calls).now
  {
    var reach := ReachesClosed(c, start, Load(1, 1));
    RunEmbeds(c, start, Load(1, 1), reach, calls);
    var w := R.Run(c, start, calls);
    var found: seq<Step>, n: nat, wins: multiset<nat> :| reach(found, Rest(w.table, w.now, n, wins));
    steps := found;
  }
}
