/**
 * How long an interval the failure cap really guards: one millisecond more than
 * `OtpRuns.FailureCap` states is too long exactly for the settings that admit an excess.
 */
module OtpTightness {
  import opened Options
  import opened OtpTable
  import opened OtpService
  import opened OtpRuns
  import opened OtpExcess
  import opened OtpSchedule

  function LastMoment(c: Config): int {
    Ms(c.ttl) - 1
  }

  /** The first millisecond at which the first code has left the lock window. */
  function Freed(c: Config): int {
    Ms(c.lockWindow) + 1
  }

  // ---------- The slots fit ----------

  /** The whole issue windows that `k` issues take. */
  function Waited(c: Config, k: nat): int
    requires c.maxIssues > 0
  {
    if k < c.maxIssues then 0 else Waited(c, k - c.maxIssues) + Ms(c.issueWindow)
  }

  lemma {:induction false} WaitedIs(c: Config, k: nat)
    requires c.maxIssues > 0
    ensures Waited(c, k) == k / c.maxIssues * Ms(c.issueWindow)
  {
    if k < c.maxIssues {
      assert k / c.maxIssues == 0 && 0 * Ms(c.issueWindow) == 0;
    } else {
      WaitedIs(c, k - c.maxIssues);
      OneWindowLess(k, c.maxIssues, Ms(c.issueWindow));
    }
  }

  lemma {:induction false} SlotBound(c: Config, first: int, k: nat)
    requires c.maxIssues > 0 && first >= 0 && k >= 1
    ensures Waited(c, k - 1) >= 0
    ensures SlotAt(c, first, k) <= first + Waited(c, k - 1) || SlotAt(c, first, k) <= Waited(c, k)
  {
    if k > c.maxIssues {
      SlotBound(c, first, k - c.maxIssues);
    }
  }

  lemma QuotientIs(k: nat, size: nat, q: nat, r: nat)
    requires r < size && k == q * size + r
    ensures k / size == q
  {
    var d := k / size;
    AddOne(d, size);
    AddOne(q, size);
    assert d * size <= k < (d + 1) * size && q * size <= k < (q + 1) * size;
    SmallerFactor(size, d, q + 1);
    SmallerFactor(size, q, d + 1);
  }

  lemma OneQuotientLess(k: nat, size: nat)
    requires 0 < size <= k
    ensures k / size == (k - size) / size + 1 && (k - size) / size >= 0
  {
    var q := (k - size) / size;
    AddOne(q, size);
    QuotientIs(k, size, q + 1, (k - size) % size);
  }

  lemma OneWindowLess(k: nat, size: nat, window: nat)
    requires 0 < size <= k
    ensures k / size * window == (k - size) / size * window + window
    ensures k / size * window >= 0 && (k - size) / size * window >= 0
  {
    OneQuotientLess(k, size);
    AddOne((k - size) / size, window);
  }

  lemma AddOne(q: nat, window: nat)
    ensures (q + 1) * window == q * window + window && q * window >= 0
  {
  }

  lemma LastSlotFits(c: Config)
    requires ValidConfig(c) && RateAdmits(c)
    ensures SlotAt(c, LastMoment(c), CodesNeeded(c)) <= Freed(c)
  {
    var q := CodesNeeded(c);
    NeededIsPositive(c);
    SlotBound(c, LastMoment(c), q);
    WaitedIs(c, q - 1);
    WaitedIs(c, q);
    Seconds((q - 1) / c.maxIssues, c.issueWindow);
    Seconds(q / c.maxIssues, c.issueWindow);
  }

  // ---------- Several attempts for each code ----------

  ghost predicate Started(c: Config, reach: Claim) {
    ValidConfig(c) && c.lockWindow >= c.ttl && Closed(c, reach) && reach([], World(EMPTY, 0, [], [], []))
  }

  /** One failure more than the cap. */
  ghost predicate Over(c: Config, w: World) {
    Exceeds(c, w.fails, PHONE, LastMoment(c))
  }

  lemma OverBoard(c: Config, w: World, b: Board)
    requires Shows(c, w, b) && b.hits > c.maxFailures
    ensures Over(c, w)
  {
  }

  /** The last code, issued and tried once the first one has left the lock window. */
  lemma LastCode(c: Config, reach: Claim, calls: seq<Call>, w: World, b: Board, n: nat) returns (more: seq<Call>, v: World)
    requires Started(c, reach) && reach(calls, w) && Shows(c, w, b) && b.now <= Freed(c)
    requires RateFits(c, b.born, Freed(c)) && Cool(c, b, Freed(c)) && n <= c.maxAttempts && b.tail + n <= c.maxFailures && n > 0
    requires b.hits + n > c.maxFailures
    ensures reach(more, v) && Over(c, v)
  {
    more, v := NextCode(c, reach, calls, w, b, Freed(c), n);
    OverBoard(c, v, AfterTries(c, Reissued(b, Freed(c)), n, Freed(c)));
  }

  /** The codes before the last fill up without reaching the cap. */
  lemma FullThenLast(c: Config, reach: Claim, q: nat) returns (calls: seq<Call>, w: World)
    requires Started(c, reach) && q >= 1 && q * c.maxAttempts < c.maxFailures < (q + 1) * c.maxAttempts
    requires SlotAt(c, LastMoment(c), q) <= Freed(c)
    ensures reach(calls, w) && Over(c, w)
  {
    var b: Board;
    SlotsRise(c, LastMoment(c), q - 1, q);
    calls, w, b := Fill(c, reach, LastMoment(c), q);
    SlotFits(c, LastMoment(c), q, Freed(c));
    Products(q, c.maxAttempts);
    calls, w := LastCode(c, reach, calls, w, b, c.maxFailures + 1 - q * c.maxAttempts);
  }

  lemma Products(q: nat, a: nat)
    requires q >= 1
    ensures q * a == (q - 1) * a + a && (q + 1) * a == q * a + a
  {
  }

  /** A board from which the last code exceeds the cap with `n` tries. */
  predicate Ready(c: Config, b: Board, n: nat) {
    && b.now <= Freed(c) && RateFits(c, b.born, Freed(c)) && Cool(c, b, Freed(c))
    && 0 < n <= c.maxAttempts && b.tail + n <= c.maxFailures < b.hits + n
  }

  lemma AlmostFull(c: Config, q: nat, b: Board)
    requires ValidConfig(c) && c.lockWindow >= c.ttl && q >= 2 && c.maxAttempts >= 2 && q * c.maxAttempts == c.maxFailures
    requires SlotAt(c, LastMoment(c), q) <= Freed(c) && Filled(c, LastMoment(c), b, q - 1)
    ensures var at := SlotAt(c, LastMoment(c), q - 1);
            && CanIssue(c, b, at) && Load(c, b, at) + (c.maxAttempts - 1) < c.maxFailures
            && Ready(c, TakenBoard(c, b, at, c.maxAttempts - 1), 2)
  {
    var first, at := LastMoment(c), SlotAt(c, LastMoment(c), q - 1);
    Products(q, c.maxAttempts);
    Products(q - 1, c.maxAttempts);
    SlotsRise(c, first, q - 2, q - 1);
    SlotsRise(c, first, q - 1, q);
    SlotFits(c, first, q - 1, at);
    assert b.born + [at] == Slots(c, first, q);
    SlotFits(c, first, q, Freed(c));
  }

  lemma CanFillBut(c: Config, q: nat)
    requires ValidConfig(c) && c.lockWindow >= c.ttl && q >= 2 && q * c.maxAttempts == c.maxFailures
    requires SlotAt(c, LastMoment(c), q) <= Freed(c)
    ensures CanFill(c, LastMoment(c), q - 1)
  {
    Products(q, c.maxAttempts);
    SlotsRise(c, LastMoment(c), q - 2, q);
  }

  /** The codes before the last could just reach the cap: the last but one keeps an attempt back. */
  lemma AlmostFullThenLast(c: Config, reach: Claim, q: nat) returns (calls: seq<Call>, w: World)
    requires Started(c, reach) && q >= 2 && c.maxAttempts >= 2 && q * c.maxAttempts == c.maxFailures
    requires SlotAt(c, LastMoment(c), q) <= Freed(c)
    ensures reach(calls, w) && Over(c, w)
  {
    var at := SlotAt(c, LastMoment(c), q - 1);
    var b: Board;
    CanFillBut(c, q);
    calls, w, b := Fill(c, reach, LastMoment(c), q - 1);
    AlmostFull(c, q, b);
    calls, w := TakenCode(c, reach, calls, w, b, at, c.maxAttempts - 1);
    calls, w := LastCode(c, reach, calls, w, TakenBoard(c, b, at, c.maxAttempts - 1), 2);
  }

  /** One code may absorb the whole cap. */
  lemma FirstThenLast(c: Config, reach: Claim) returns (calls: seq<Call>, w: World)
    requires Started(c, reach) && c.maxAttempts >= c.maxFailures >= 2
    requires SlotAt(c, LastMoment(c), 1) <= Freed(c)
    ensures reach(calls, w) && Over(c, w)
  {
    var first, n := LastMoment(c), c.maxFailures - 1;
    calls, w := FirstCode(c, reach, n, first);
    var b := FirstBoard(c, n, first);
    calls, w := Take(c, reach, calls, w, b, first);
    b := b.(open := false, now := first);
    assert b.born == Slots(c, first, 1);
    SlotFits(c, first, 1, Freed(c));
    calls, w := LastCode(c, reach, calls, w, b, 2);
  }

  lemma ManyAttempts(c: Config, reach: Claim) returns (calls: seq<Call>, w: World)
    requires Started(c, reach) && RateAdmits(c) && c.maxAttempts >= 2 && c.maxFailures >= 2
    ensures reach(calls, w) && Over(c, w)
  {
    var q := CodesNeeded(c);
    LastSlotFits(c);
    if c.maxAttempts >= c.maxFailures {
      assert c.maxAttempts == c.maxFailures ==> q == 1;
      calls, w := FirstThenLast(c, reach);
    } else {
      QuotientBounds(c.maxFailures, c.maxAttempts);
      if q * c.maxAttempts < c.maxFailures {
        calls, w := FullThenLast(c, reach, q);
      } else {
        calls, w := AlmostFullThenLast(c, reach, q);
      }
    }
  }

  lemma QuotientBounds(f: nat, a: nat)
    requires 0 < a < f
    ensures f / a >= 1 && f / a * a <= f < (f / a + 1) * a
    ensures f / a * a == f ==> f / a >= 2
  {
  }

  // ---------- A cap of one ----------

  lemma OneFailure(c: Config, reach: Claim) returns (calls: seq<Call>, w: World)
    requires Started(c, reach) && AdmitsExcess(c) && c.maxFailures == 1
    ensures reach(calls, w) && Over(c, w)
  {
    calls, w := FirstCode(c, reach, 1, LastMoment(c));
    var b := FirstBoard(c, 1, LastMoment(c));
    if c.issueWindow <= c.lockWindow {
      var prune := Call(Prune, Freed(c));
      PruneAll(c, w, b, Freed(c));
      Extend(c, reach, calls, w, prune);
      calls, w := LastCode(c, reach, calls + [prune], Apply(c, w, prune), Board([], false, 0, 0, 0, b.hits, Freed(c)), 1);
    } else {
      OneForTwo(c);
      calls, w := LastCode(c, reach, calls, w, b, 1);
    }
  }

  lemma RateOfOne(c: Config)
    requires ValidConfig(c) && RateAdmits(c)
    ensures c.maxIssues == 1 ==> CodesNeeded(c) * c.issueWindow <= c.lockWindow
  {
    ByOne(CodesNeeded(c));
  }

  lemma OneForTwo(c: Config)
    requires ValidConfig(c) && RateAdmits(c) && c.maxFailures == 1 && c.issueWindow > c.lockWindow
    ensures c.maxIssues >= 2
  {
    ByOne(c.maxFailures);
    RateOfOne(c);
  }

  // ---------- One attempt for each code ----------

  /** One attempt for each code, and several failures to the cap. */
  predicate OneEach(c: Config) {
    ValidConfig(c) && c.lockWindow >= c.ttl && c.maxAttempts == 1 && c.maxFailures >= 2 && RateAdmits(c)
  }

  /** All codes but the last two, each with its failure. */
  predicate ButTwo(c: Config, b: Board)
    requires OneEach(c)
  {
    && b.born == Slots(c, LastMoment(c), c.maxFailures - 1) && !b.open
    && b.all == c.maxFailures - 1 && b.tail == c.maxFailures - 2 && b.hits == c.maxFailures - 1
    && b.now <= SlotAt(c, LastMoment(c), c.maxFailures - 1)
  }

  lemma AllButTwo(c: Config, reach: Claim) returns (calls: seq<Call>, w: World, b: Board)
    requires Started(c, reach) && OneEach(c)
    ensures reach(calls, w) && Shows(c, w, b) && ButTwo(c, b)
  {
    EachSlotFits(c);
    SlotsRise(c, LastMoment(c), c.maxFailures - 2, c.maxFailures);
    SlotsRise(c, LastMoment(c), c.maxFailures - 2, c.maxFailures - 1);
    calls, w, b := Fill(c, reach, LastMoment(c), c.maxFailures - 1);
  }

  lemma EachSlotFits(c: Config)
    requires OneEach(c)
    ensures SlotAt(c, LastMoment(c), c.maxFailures) <= Freed(c)
  {
    LastSlotFits(c);
    ByOne(c.maxFailures);
  }

  lemma ByOne(f: nat)
    ensures f / 1 == f
  {
  }

  /** Both at the first free millisecond. */
  lemma TwoReady(c: Config, b: Board)
    requires OneEach(c) && c.maxIssues >= 2 && ButTwo(c, b)
    ensures CanIssue(c, b, Freed(c)) && Ready(c, TakenBoard(c, b, Freed(c), 1), 1)
  {
    var f := c.maxFailures;
    EachSlotFits(c);
    SlotsRise(c, LastMoment(c), f - 1, f);
    SlotFits(c, LastMoment(c), f - 1, Freed(c));
    if f >= c.maxIssues {
      SlotsSpaced(c, LastMoment(c), f - c.maxIssues);
    }
  }

  lemma TwoAtOnce(c: Config, reach: Claim) returns (calls: seq<Call>, w: World)
    requires Started(c, reach) && OneEach(c) && c.maxIssues >= 2
    ensures reach(calls, w) && Over(c, w)
  {
    var b: Board;
    calls, w, b := AllButTwo(c, reach);
    TwoReady(c, b);
    calls, w := TakenCode(c, reach, calls, w, b, Freed(c), 1);
    calls, w := LastCode(c, reach, calls, w, TakenBoard(c, b, Freed(c), 1), 1);
  }

  /** The last but one an issue window before, still alive at the first free millisecond. */
  lemma WaitsReady(c: Config, b: Board)
    requires OneEach(c) && c.maxIssues == 1 && c.issueWindow < c.ttl && ButTwo(c, b)
    ensures var at := Freed(c) - Ms(c.issueWindow);
            && CanIssue(c, b, at) && at >= 0
            && Ready(c, AfterTries(c, Reissued(b, at), 1, Freed(c)).(open := false, now := Freed(c)), 1)
  {
    var f, at := c.maxFailures, Freed(c) - Ms(c.issueWindow);
    EachSlotFits(c);
    SlotsSpaced(c, LastMoment(c), f - 1);
    SlotFits(c, LastMoment(c), f - 1, at);
    SlotsRise(c, LastMoment(c), f - 2, f - 1);
  }

  lemma OneWaits(c: Config, reach: Claim) returns (calls: seq<Call>, w: World)
    requires Started(c, reach) && OneEach(c) && c.maxIssues == 1 && c.issueWindow < c.ttl
    ensures reach(calls, w) && Over(c, w)
  {
    var at := Freed(c) - Ms(c.issueWindow);
    var b: Board;
    calls, w, b := AllButTwo(c, reach);
    WaitsReady(c, b);
    calls, w := Reissue(c, reach, calls, w, b, at);
    b := Reissued(b, at);
    calls, w := Tries(c, reach, calls, w, b, 1, Freed(c));
    b := AfterTries(c, b, 1, Freed(c));
    calls, w := Take(c, reach, calls, w, b, Freed(c));
    calls, w := LastCode(c, reach, calls, w, b.(open := false, now := Freed(c)), 1);
  }

  /** The last but one in its slot, cooled down by the first free millisecond. */
  lemma CoolsReady(c: Config, b: Board)
    requires OneEach(c) && c.maxIssues == 1 && ButTwo(c, b)
    requires c.issueWindow >= c.ttl && (c.maxFailures - 1) * c.issueWindow + c.cooldown <= c.lockWindow
    ensures var at := SlotAt(c, LastMoment(c), c.maxFailures - 1);
            CanIssue(c, b, at) && Load(c, b, at) < c.maxFailures && Ready(c, AfterTries(c, Reissued(b, at), 1, at), 1)
  {
    var f, at := c.maxFailures, SlotAt(c, LastMoment(c), c.maxFailures - 1);
    SlotOfOne(c, f - 1);
    Seconds(f - 1, c.issueWindow);
    EachSlotFits(c);
    SlotsSpaced(c, LastMoment(c), f - 1);
    SlotFits(c, LastMoment(c), f - 1, at);
    SlotsRise(c, LastMoment(c), f - 2, f - 1);
  }

  lemma OneCools(c: Config, reach: Claim) returns (calls: seq<Call>, w: World)
    requires Started(c, reach) && OneEach(c) && c.maxIssues == 1
    requires c.issueWindow >= c.ttl && (c.maxFailures - 1) * c.issueWindow + c.cooldown <= c.lockWindow
    ensures reach(calls, w) && Over(c, w)
  {
    var at := SlotAt(c, LastMoment(c), c.maxFailures - 1);
    var b: Board;
    calls, w, b := AllButTwo(c, reach);
    CoolsReady(c, b);
    calls, w := NextCode(c, reach, calls, w, b, at, 1);
    calls, w := LastCode(c, reach, calls, w, AfterTries(c, Reissued(b, at), 1, at), 1);
  }

  lemma {:induction false} SlotOfOne(c: Config, k: nat)
    requires ValidConfig(c) && c.maxIssues == 1 && c.issueWindow >= c.ttl
    ensures SlotAt(c, LastMoment(c), k) == k * Ms(c.issueWindow)
  {
    if k > 0 {
      SlotOfOne(c, k - 1);
      AddOne(k - 1, Ms(c.issueWindow));
    }
  }

  // ---------- The theorem ----------

  lemma Excess(c: Config, reach: Claim) returns (calls: seq<Call>, w: World)
    requires Started(c, reach) && AdmitsExcess(c)
    ensures reach(calls, w) && Over(c, w)
  {
    if c.maxFailures == 1 {
      calls, w := OneFailure(c, reach);
    } else if c.maxAttempts >= 2 {
      calls, w := ManyAttempts(c, reach);
    } else if c.maxIssues >= 2 {
      calls, w := TwoAtOnce(c, reach);
    } else if c.issueWindow < c.ttl {
      calls, w := OneWaits(c, reach);
    } else {
      calls, w := OneCools(c, reach);
    }
  }

  /** A run puts more failures than the cap into an interval a millisecond past the guarded length. */
  ghost predicate RunExceeds(c: Config) {
    exists start, calls, key, from :: Chronological(start, calls) && Exceeds(c, Run(c, start, calls).fails, key, from)
  }

  ghost predicate Made(c: Config, calls: seq<Call>, w: World) {
    Chronological(0, calls) && w == Run(c, 0, calls) && w.now == if calls == [] then 0 else calls[|calls| - 1].at
  }

  lemma MadeOn(c: Config, calls: seq<Call>, w: World, call: Call)
    requires Made(c, calls, w) && w.now <= call.at
    ensures Made(c, calls + [call], Apply(c, w, call))
  {
    RunExtends(c, 0, calls, call);
    Ends(c, w, call);
    forall i | 0 <= i < |calls|
      ensures calls[i].at <= call.at && 0 <= call.at
    {
      assert i < |calls| - 1 ==> calls[i].at <= calls[|calls| - 1].at;
    }
    EmptyStart(calls, w.now, call.at);
  }

  lemma EmptyStart(calls: seq<Call>, now: int, at: int)
    requires now <= at && (calls == [] ==> now == 0)
    ensures calls == [] ==> 0 <= at
  {
  }

  lemma Ends(c: Config, w: World, call: Call)
    ensures Apply(c, w, call).now == call.at
  {
  }

  lemma ExcessRun(c: Config)
    requires ValidConfig(c) && c.lockWindow >= c.ttl && AdmitsExcess(c)
    ensures RunExceeds(c)
  {
    var reach: Claim := (calls, w) => Made(c, calls, w);
    forall calls: seq<Call>, w: World, call: Call | reach(calls, w) && w.now <= call.at
      ensures reach(calls + [call], Apply(c, w, call))
    {
      MadeOn(c, calls, w, call);
    }
    var calls, w := Excess(c, reach);
    assert Chronological(0, calls) && Exceeds(c, Run(c, 0, calls).fails, PHONE, LastMoment(c));
  }

  /**
   * The interval that `OtpRuns.FailureCap` guards can be lengthened by a millisecond exactly
   * when the settings do not admit an excess; otherwise some run puts one failure more than
   * the cap into it. The cap is then not a cap per lock window, only per lock window less the
   * code lifetime.
   */
  lemma GuardedLengthIsTightIff(c: Config)
    requires ValidConfig(c) && c.lockWindow >= c.ttl
    ensures RunExceeds(c) <==> AdmitsExcess(c)
  {
    if AdmitsExcess(c) {
      ExcessRun(c);
    }
    if start, calls, key, from :| Chronological(start, calls) && Exceeds(c, Run(c, start, calls).fails, key, from) {
      ExcessNeeds(c, start, calls, key, from);
    }
  }

  /** The settings of the repository's environment files, which differ in the issues for each window and the fixed code. */
  function Shipped(maxIssues: nat, fixedCode: Option<string>): Config {
    Config(300, 60, 5, 14400, 30, 3600, maxIssues, fixedCode)
  }

  /** They all admit an excess, so the cap is exceeded within the lock window in some run. */
  lemma ShippedExceeds(maxIssues: nat, fixedCode: Option<string>)
    requires maxIssues == 3 || maxIssues == 10
    ensures ValidConfig(Shipped(maxIssues, fixedCode)) && RunExceeds(Shipped(maxIssues, fixedCode))
  {
    var c := Shipped(maxIssues, fixedCode);
    assert CodesNeeded(c) == 6;
    GuardedLengthIsTightIff(c);
  }
}
