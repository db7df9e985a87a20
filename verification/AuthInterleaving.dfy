/**
 * One account's cache key under free interleaving: cache reads, row reads, cache writes, row
 * updates and invalidations are separate steps, and a request may write an old row back to
 * the cache after it was invalidated.
 */
module AuthInterleaving {
  import opened Options
  import opened AuthCache

  /** The row from an instant on; ticks number the steps. */
  datatype Version = Version(value: Option<Account>, from: int, tick: nat)

  /** A row as read: which version, and when. */
  datatype Reading = Reading(value: Option<Account>, version: nat, at: int, tick: nat)

  datatype CacheEntry = CacheEntry(reading: Reading, setAt: int, setTick: nat)

  datatype Flight =
    | Missed
    | Loaded(reading: Reading)
    | Wrote(version: nat)
    | Done

  /** A principal handed to a request, straight from the row or out of the cache. */
  datatype Served = Served(reading: Reading, setAt: int, setTick: nat, at: int, tick: nat)

  /** A completed invalidation: the version written before it. */
  datatype Invalidation = Invalidation(version: nat, tick: nat)

  datatype State = State(
    log: seq<Version>,
    now: int,
    tick: nat,
    cache: Option<CacheEntry>,
    flights: seq<Flight>,
    served: seq<Served>,
    invalidations: seq<Invalidation>)

  datatype Step =
    | BeginRequest
    | Advance(flight: nat)
    | Update(account: Account)
    | Insert(account: Account)
    | Wait(until: int)

  const TTL := AUTH_USER_SECONDS * 1000

  function Start(row: Option<Account>, now: int): State {
    State([Version(row, now, 0)], now, 1, None, [], [], [])
  }

  function Last(log: seq<Version>): Option<Account> {
    if log == [] then None else log[|log| - 1].value
  }

  function ReadRow(s: State): Reading
    requires s.log != []
  {
    Reading(Last(s.log), |s.log| - 1, s.now, s.tick)
  }

  function AdvanceFlight(s: State, i: nat): State
    requires i < |s.flights| && s.log != []
  {
    match s.flights[i]
    case Missed =>
      var r := ReadRow(s);
      if r.value.Some? then s.(flights := s.flights[i := Loaded(r)])
      else s.(flights := s.flights[i := Done], served := s.served + [Served(r, s.now, s.tick, s.now, s.tick)])
    case Loaded(r) =>
      s.(cache := Some(CacheEntry(r, s.now, s.tick)), flights := s.flights[i := Done],
         served := s.served + [Served(r, s.now, s.tick, s.now, s.tick)])
    case Wrote(version) =>
      s.(cache := None, flights := s.flights[i := Done], invalidations := s.invalidations + [Invalidation(version, s.tick)])
    case Done => s
  }

  function Act(s: State, step: Step): State
    requires s.log != []
  {
    match step
    case BeginRequest =>
      if s.cache.Some? && s.cache.value.setAt + TTL > s.now
      then s.(served := s.served + [Served(s.cache.value.reading, s.cache.value.setAt, s.cache.value.setTick, s.now, s.tick)])
      else s.(flights := s.flights + [Missed])
    case Advance(i) => if i < |s.flights| then AdvanceFlight(s, i) else s
    case Update(account) =>
      if Last(s.log).None? then s
      else s.(log := s.log + [Version(Some(account), s.now, s.tick)], flights := s.flights + [Wrote(|s.log|)])
    case Insert(account) =>
      if Last(s.log).Some? then s else s.(log := s.log + [Version(Some(account), s.now, s.tick)])
    case Wait(until) => if until >= s.now then s.(now := until) else s
  }

  function Apply(s: State, step: Step): State {
    if s.log == [] then s else Act(s, step).(tick := s.tick + 1)
  }

  function Run(row: Option<Account>, start: int, steps: seq<Step>): State {
    if steps == [] then Start(row, start) else Apply(Run(row, start, steps[..|steps| - 1]), steps[|steps| - 1])
  }

  // ---------- Invariant ----------

  ghost predicate LogSound(log: seq<Version>, now: int, tick: nat) {
    && log != []
    && (forall i :: 0 <= i < |log| ==> log[i].from <= now && log[i].tick < tick)
    && (forall i, j :: 0 <= i < j < |log| ==> log[i].from <= log[j].from && log[i].tick < log[j].tick)
  }

  /** A reading is of a version that was the row at that instant. */
  ghost predicate ReadingSound(log: seq<Version>, now: int, tick: nat, r: Reading) {
    && r.version < |log| && r.value == log[r.version].value
    && log[r.version].from <= r.at <= now && log[r.version].tick < r.tick <= tick
    && (r.version + 1 < |log| ==> r.at <= log[r.version + 1].from && r.tick < log[r.version + 1].tick)
  }

  /**
   * A reading older than a completed invalidation: it was taken before the write, and put
   * into the cache after the deletion.
   */
  ghost predicate Straddles(log: seq<Version>, r: Reading, setTick: nat, inv: Invalidation)
    requires inv.version < |log|
  {
    r.tick < log[inv.version].tick && inv.tick < setTick
  }

  ghost predicate FlightsSound(log: seq<Version>, now: int, tick: nat, flights: seq<Flight>) {
    forall f :: f in flights ==>
      && (f.Loaded? ==> ReadingSound(log, now, tick, f.reading) && f.reading.tick < tick)
      && (f.Wrote? ==> f.version < |log|)
  }

  ghost predicate CacheSound(log: seq<Version>, now: int, tick: nat, cache: Option<CacheEntry>, invalidations: seq<Invalidation>) {
    && (forall inv :: inv in invalidations ==> inv.version < |log| && inv.tick < tick)
    && (cache.Some? ==>
          var e := cache.value;
          && ReadingSound(log, now, tick, e.reading) && e.reading.tick < tick
          && e.reading.at <= e.setAt <= now && e.setTick < tick
          && forall inv :: inv in invalidations && e.reading.version < inv.version ==> Straddles(log, e.reading, e.setTick, inv))
  }

  /** What was served, against the log and the invalidations completed before. */
  ghost predicate Truthful(log: seq<Version>, now: int, tick: nat, invalidations: seq<Invalidation>, s: Served) {
    && ReadingSound(log, now, tick, s.reading) && s.reading.tick < tick && s.tick < tick
    && s.reading.at <= s.setAt <= s.at <= now && s.at - s.setAt <= TTL && s.setTick <= s.tick
    && forall inv :: inv in invalidations && inv.version < |log| && inv.tick < s.tick && s.reading.version < inv.version ==>
         Straddles(log, s.reading, s.setTick, inv)
  }

  ghost predicate AllTruthful(log: seq<Version>, now: int, tick: nat, invalidations: seq<Invalidation>, served: seq<Served>) {
    forall s :: s in served ==> Truthful(log, now, tick, invalidations, s)
  }

  ghost predicate Invariant(s: State) {
    && LogSound(s.log, s.now, s.tick)
    && FlightsSound(s.log, s.now, s.tick, s.flights)
    && CacheSound(s.log, s.now, s.tick, s.cache, s.invalidations)
    && AllTruthful(s.log, s.now, s.tick, s.invalidations, s.served)
  }

  /** Time and ticks only move the upper bounds. */
  lemma LaterKeepsInvariant(s: State, now: int, tick: nat)
    requires Invariant(s) && s.now <= now && s.tick <= tick
    ensures Invariant(s.(now := now, tick := tick))
  {
    forall v | v in s.served
      ensures Truthful(s.log, now, tick, s.invalidations, v)
    {
      assert Truthful(s.log, s.now, s.tick, s.invalidations, v);
    }
  }

  /** Serving at tick `tick` a reading that passed the cache. */
  lemma ServeKeepsTruth(s: State, r: Reading, setAt: int, setTick: nat)
    requires Invariant(s) && ReadingSound(s.log, s.now, s.tick, r) && r.at <= setAt <= s.now && s.now - setAt <= TTL && setTick <= s.tick
    requires forall inv :: inv in s.invalidations && r.version < inv.version ==> inv.version < |s.log| && Straddles(s.log, r, setTick, inv)
    ensures AllTruthful(s.log, s.now, s.tick + 1, s.invalidations, s.served + [Served(r, setAt, setTick, s.now, s.tick)])
  {
    LaterKeepsInvariant(s, s.now, s.tick + 1);
    forall v | v in s.served + [Served(r, setAt, setTick, s.now, s.tick)]
      ensures Truthful(s.log, s.now, s.tick + 1, s.invalidations, v)
    {
      if v !in s.served {
        assert v == Served(r, setAt, setTick, s.now, s.tick);
      }
    }
  }

  lemma RequestKeepsInvariant(s: State)
    requires Invariant(s)
    ensures Invariant(Apply(s, BeginRequest))
  {
    LaterKeepsInvariant(s, s.now, s.tick + 1);
    if s.cache.Some? && s.cache.value.setAt + TTL > s.now {
      ServeKeepsTruth(s, s.cache.value.reading, s.cache.value.setAt, s.cache.value.setTick);
    }
  }

  lemma FlightKeepsSound(s: State, i: nat, f: Flight)
    requires Invariant(s) && i < |s.flights|
    requires f.Loaded? ==> ReadingSound(s.log, s.now, s.tick, f.reading)
    requires f.Wrote? ==> f.version < |s.log|
    ensures FlightsSound(s.log, s.now, s.tick + 1, s.flights[i := f])
  {
    forall g | g in s.flights[i := f]
      ensures g == f || g in s.flights
    {
    }
  }

  lemma MissedAdvances(s: State, i: nat)
    requires Invariant(s) && i < |s.flights| && s.flights[i].Missed?
    ensures Invariant(Apply(s, Advance(i)))
  {
    var r := ReadRow(s);
    LaterKeepsInvariant(s, s.now, s.tick + 1);
    if r.value.Some? {
      FlightKeepsSound(s, i, Loaded(r));
    } else {
      FlightKeepsSound(s, i, Done);
      ServeKeepsTruth(s, r, s.now, s.tick);
    }
  }

  /** An old reading was taken before every later version was written. */
  lemma ReadBefore(log: seq<Version>, now: int, tick: nat, r: Reading, version: nat)
    requires LogSound(log, now, tick) && ReadingSound(log, now, tick, r) && r.version < version < |log|
    ensures r.tick < log[version].tick
  {
    assert r.tick < log[r.version + 1].tick;
  }

  lemma LoadedAdvances(s: State, i: nat)
    requires Invariant(s) && i < |s.flights| && s.flights[i].Loaded?
    ensures Invariant(Apply(s, Advance(i)))
  {
    var r := s.flights[i].reading;
    assert s.flights[i] in s.flights;
    LaterKeepsInvariant(s, s.now, s.tick + 1);
    forall inv | inv in s.invalidations && r.version < inv.version
      ensures inv.version < |s.log| && Straddles(s.log, r, s.tick, inv)
    {
      ReadBefore(s.log, s.now, s.tick, r, inv.version);
    }
    FlightKeepsSound(s, i, Done);
    ServeKeepsTruth(s, r, s.now, s.tick);
  }

  lemma WroteAdvances(s: State, i: nat)
    requires Invariant(s) && i < |s.flights| && s.flights[i].Wrote?
    ensures Invariant(Apply(s, Advance(i)))
  {
    var inv := Invalidation(s.flights[i].version, s.tick);
    assert s.flights[i] in s.flights;
    LaterKeepsInvariant(s, s.now, s.tick + 1);
    FlightKeepsSound(s, i, Done);
    forall v | v in s.served
      ensures Truthful(s.log, s.now, s.tick + 1, s.invalidations + [inv], v)
    {
      assert Truthful(s.log, s.now, s.tick, s.invalidations, v);
    }
  }

  /** A new version changes nothing about older readings. */
  lemma AppendKeepsReading(log: seq<Version>, now: int, tick: nat, next: Version, r: Reading)
    requires LogSound(log, now, tick) && ReadingSound(log, now, tick, r)
    requires next.from == now && next.tick == tick && r.tick < tick
    ensures ReadingSound(log + [next], now, tick + 1, r)
  {
  }

  lemma AppendKeepsTruth(s: State, next: Version)
    requires Invariant(s) && next.from == s.now && next.tick == s.tick
    ensures AllTruthful(s.log + [next], s.now, s.tick + 1, s.invalidations, s.served)
  {
    forall v | v in s.served
      ensures Truthful(s.log + [next], s.now, s.tick + 1, s.invalidations, v)
    {
      assert Truthful(s.log, s.now, s.tick, s.invalidations, v);
      AppendKeepsReading(s.log, s.now, s.tick, next, v.reading);
    }
  }

  lemma AppendKeepsFlights(s: State, next: Version)
    requires Invariant(s) && next.from == s.now && next.tick == s.tick
    ensures FlightsSound(s.log + [next], s.now, s.tick + 1, s.flights)
  {
    forall f | f in s.flights && f.Loaded?
      ensures ReadingSound(s.log + [next], s.now, s.tick + 1, f.reading)
    {
      AppendKeepsReading(s.log, s.now, s.tick, next, f.reading);
    }
  }

  lemma AppendKeepsInvariant(s: State, next: Version)
    requires Invariant(s) && next.from == s.now && next.tick == s.tick
    ensures Invariant(s.(log := s.log + [next], tick := s.tick + 1))
  {
    AppendKeepsTruth(s, next);
    AppendKeepsFlights(s, next);
    if s.cache.Some? {
      AppendKeepsReading(s.log, s.now, s.tick, next, s.cache.value.reading);
    }
  }

  lemma AdvanceKeepsInvariant(s: State, i: nat)
    requires Invariant(s)
    ensures Invariant(Apply(s, Advance(i)))
  {
    if i < |s.flights| && s.flights[i].Missed? {
      MissedAdvances(s, i);
    } else if i < |s.flights| && s.flights[i].Loaded? {
      LoadedAdvances(s, i);
    } else if i < |s.flights| && s.flights[i].Wrote? {
      WroteAdvances(s, i);
    } else {
      LaterKeepsInvariant(s, s.now, s.tick + 1);
    }
  }

  lemma JoinKeepsInvariant(s: State, f: Flight)
    requires Invariant(s) && (f.Missed? || (f.Wrote? && f.version < |s.log|))
    ensures Invariant(s.(flights := s.flights + [f]))
  {
  }

  /** The update's own flight, which will invalidate, is added with the version. */
  lemma UpdateKeepsInvariant(s: State, account: Account)
    requires Invariant(s)
    ensures Invariant(Apply(s, Step.Update(account)))
  {
    if Last(s.log).None? {
      LaterKeepsInvariant(s, s.now, s.tick + 1);
    } else {
      var next := Version(Some(account), s.now, s.tick);
      AppendKeepsInvariant(s, next);
      JoinKeepsInvariant(s.(log := s.log + [next], tick := s.tick + 1), Wrote(|s.log|));
    }
  }

  lemma InsertKeepsInvariant(s: State, account: Account)
    requires Invariant(s)
    ensures Invariant(Apply(s, Insert(account)))
  {
    if Last(s.log).Some? {
      LaterKeepsInvariant(s, s.now, s.tick + 1);
    } else {
      AppendKeepsInvariant(s, Version(Some(account), s.now, s.tick));
    }
  }

  lemma WaitKeepsInvariant(s: State, until: int)
    requires Invariant(s)
    ensures Invariant(Apply(s, Wait(until)))
  {
    LaterKeepsInvariant(s, if until >= s.now then until else s.now, s.tick + 1);
  }

  lemma StepKeepsInvariant(s: State, step: Step)
    requires Invariant(s)
    ensures Invariant(Apply(s, step))
  {
    match step {
      case BeginRequest => RequestKeepsInvariant(s);
      case Advance(i) => AdvanceKeepsInvariant(s, i);
      case Update(account) => UpdateKeepsInvariant(s, account);
      case Insert(account) => InsertKeepsInvariant(s, account);
      case Wait(until) => WaitKeepsInvariant(s, until);
    }
  }

  lemma {:induction false} RunKeepsInvariant(row: Option<Account>, start: int, steps: seq<Step>)
    ensures Invariant(Run(row, start, steps))
  {
    if steps != [] {
      RunKeepsInvariant(row, start, steps[..|steps| - 1]);
      StepKeepsInvariant(Run(row, start, steps[..|steps| - 1]), steps[|steps| - 1]);
    }
  }

  // ---------- Staleness ----------

  /** Version `k` was the row at instant `at`. */
  ghost predicate WasRow(log: seq<Version>, k: nat, at: int) {
    k < |log| && log[k].from <= at && (k + 1 < |log| ==> at <= log[k + 1].from)
  }

  /**
   * Whatever the interleaving, a principal served at an instant is the database row at some
   * instant no older than the time to live and the longest delay from a row read to its
   * cache write.
   */
  lemma StalenessBounded(row: Option<Account>, start: int, steps: seq<Step>, i: nat, delay: nat) returns (at: int)
    requires i < |Run(row, start, steps).served|
    requires var s := Run(row, start, steps).served[i]; s.setAt - s.reading.at <= delay
    ensures var s := Run(row, start, steps).served[i];
            && s.at - TTL - delay <= at <= s.at
            && WasRow(Run(row, start, steps).log, s.reading.version, at)
            && s.reading.value == Run(row, start, steps).log[s.reading.version].value
  {
    RunKeepsInvariant(row, start, steps);
    at := ServedReading(Run(row, start, steps), i);
  }

  lemma ServedReading(s: State, i: nat) returns (at: int)
    requires Invariant(s) && i < |s.served|
    ensures at == s.served[i].reading.at <= s.served[i].setAt <= s.served[i].at <= s.served[i].setAt + TTL
    ensures WasRow(s.log, s.served[i].reading.version, at) && s.served[i].reading.value == s.log[s.served[i].reading.version].value
  {
    assert s.served[i] in s.served;
    at := s.served[i].reading.at;
  }

  /**
   * After an invalidation completes, a principal older than the write before it is served
   * exactly out of a request that read the row before the write and wrote the cache after the
   * deletion.
   */
  lemma StaleIffStraddled(row: Option<Account>, start: int, steps: seq<Step>, i: nat, j: nat)
    requires i < |Run(row, start, steps).served| && j < |Run(row, start, steps).invalidations|
    ensures var s := Run(row, start, steps);
            var v, inv := s.served[i], s.invalidations[j];
            inv.version < |s.log| && (inv.tick < v.tick && v.reading.version < inv.version <==> Straddles(s.log, v.reading, v.setTick, inv))
  {
    RunKeepsInvariant(row, start, steps);
    ServedIffStraddled(Run(row, start, steps), i, j);
  }

  lemma ServedIffStraddled(s: State, i: nat, j: nat)
    requires Invariant(s) && i < |s.served| && j < |s.invalidations|
    ensures var v, inv := s.served[i], s.invalidations[j];
            inv.version < |s.log| && (inv.tick < v.tick && v.reading.version < inv.version <==> Straddles(s.log, v.reading, v.setTick, inv))
  {
    assert s.served[i] in s.served && s.invalidations[j] in s.invalidations;
    assert Truthful(s.log, s.now, s.tick, s.invalidations, s.served[i]);
    ReadIsOlder(s.log, s.now, s.tick, s.served[i].reading, s.invalidations[j].version);
  }

  /** A reading taken before a version was written is of an older one. */
  lemma ReadIsOlder(log: seq<Version>, now: int, tick: nat, r: Reading, version: nat)
    requires LogSound(log, now, tick) && ReadingSound(log, now, tick, r) && version < |log|
    ensures r.tick < log[version].tick ==> r.version < version
  {
    if version < r.version {
      assert log[version].tick < log[r.version].tick;
    }
  }

  // ---------- A stale principal is served ----------

  /**
   * A request reads the row; the row is updated and the cache entry deleted; the request
   * writes what it read; and nearly the whole time to live later another request is served.
   */
  function Straddling(account: Account, start: int): seq<Step> {
    [BeginRequest, Advance(0), Step.Update(account), Advance(1), Advance(0), Wait(start + TTL - 1), BeginRequest]
  }

  lemma RunUnfolds(row: Option<Account>, start: int, steps: seq<Step>, last: Step)
    ensures Run(row, start, steps + [last]) == Apply(Run(row, start, steps), last)
  {
    assert (steps + [last])[..|steps|] == steps;
  }

  function Reread(row: Account, account: Account, start: int): State {
    State([Version(Some(row), start, 0), Version(Some(account), start, 3)], start, 6,
          Some(CacheEntry(Reading(Some(row), 0, start, 2), start, 5)), [Done, Done],
          [Served(Reading(Some(row), 0, start, 2), start, 5, start, 5)], [Invalidation(1, 4)])
  }

  function Rewritten(row: Account, account: Account, start: int): State {
    State([Version(Some(row), start, 0), Version(Some(account), start, 3)], start, 4, None,
          [Loaded(Reading(Some(row), 0, start, 2)), Wrote(1)], [], [])
  }

  lemma StraddlesUpToUpdate(row: Account, account: Account, start: int)
    ensures Run(Some(row), start, Straddling(account, start)[..3]) == Rewritten(row, account, start)
  {
    var s := Straddling(account, start);
    assert s[..1] == [] + [s[0]] && s[..2] == s[..1] + [s[1]] && s[..3] == s[..2] + [s[2]];
    RunUnfolds(Some(row), start, [], s[0]);
    RunUnfolds(Some(row), start, s[..1], s[1]);
    RunUnfolds(Some(row), start, s[..2], s[2]);
    assert Run(Some(row), start, s[..1]) == Start(Some(row), start).(flights := [Missed], tick := 2);
    assert Run(Some(row), start, s[..2]) == Start(Some(row), start).(flights := [Loaded(Reading(Some(row), 0, start, 2))], tick := 3);
  }

  lemma StraddlesUpToWrite(row: Account, account: Account, start: int)
    ensures Run(Some(row), start, Straddling(account, start)[..5]) == Reread(row, account, start)
  {
    var s := Straddling(account, start);
    assert s[..4] == s[..3] + [s[3]] && s[..5] == s[..4] + [s[4]];
    StraddlesUpToUpdate(row, account, start);
    RunUnfolds(Some(row), start, s[..3], s[3]);
    RunUnfolds(Some(row), start, s[..4], s[4]);
    assert Run(Some(row), start, s[..4]) ==
           Rewritten(row, account, start).(tick := 5, flights := [Loaded(Reading(Some(row), 0, start, 2)), Done], invalidations := [Invalidation(1, 4)]);
  }

  /** After the update and its invalidation have completed, a new request is served the old row. */
  lemma StaleServed(row: Account, account: Account, start: int)
    ensures var s := Run(Some(row), start, Straddling(account, start));
            && Last(s.log) == Some(account) && s.invalidations == [Invalidation(1, 4)] && |s.served| == 2
            && s.served[1].tick > 4 && s.served[1].at == start + TTL - 1 && s.served[1].reading.value == Some(row)
  {
    var s := Straddling(account, start);
    assert s[..6] == s[..5] + [s[5]] && s == s[..6] + [s[6]];
    StraddlesUpToWrite(row, account, start);
    RunUnfolds(Some(row), start, s[..5], s[5]);
    RunUnfolds(Some(row), start, s[..6], s[6]);
  }
}
