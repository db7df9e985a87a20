/**
 * What a run needs in order to put more failures than the cap into an interval one
 * millisecond longer than `OtpRuns.FailureCap` guards: a first code that fails in the last
 * millisecond of its life, and enough further codes before it has left the lock window.
 */
module OtpExcess {
  import opened OtpTable
  import opened OtpService
  import opened OtpRuns
  import opened OtpHistory
  import opened Totals

  /** How many codes after the first it takes to absorb one failure more than the cap. */
  function CodesNeeded(c: Config): nat
    requires ValidConfig(c)
  {
    if c.maxFailures >= c.maxAttempts then c.maxFailures / c.maxAttempts else 1
  }

  /** The issue rate lets that many codes follow the first code's expiry within the lock window. */
  predicate RateAdmits(c: Config)
    requires ValidConfig(c)
  {
    var q := CodesNeeded(c);
    c.ttl + (q - 1) / c.maxIssues * c.issueWindow <= c.lockWindow && q / c.maxIssues * c.issueWindow <= c.lockWindow
  }

  /** With a cap of one, the first failure locks; only the cooldown or a pruning frees the next issue. */
  predicate SingleFailureAdmits(c: Config) {
    c.maxFailures == 1 ==> c.cooldown <= c.lockWindow || c.issueWindow <= c.lockWindow
  }

  /** With one attempt for each code and one issue for each window, the last code but one is in the way. */
  predicate SingleIssueAdmits(c: Config) {
    c.maxFailures >= 2 && c.maxAttempts == 1 && c.maxIssues == 1 ==>
      c.issueWindow < c.ttl || (c.maxFailures - 1) * c.issueWindow + c.cooldown <= c.lockWindow
  }

  predicate AdmitsExcess(c: Config)
    requires ValidConfig(c)
  {
    RateAdmits(c) && SingleFailureAdmits(c) && SingleIssueAdmits(c)
  }

  /** More failures than the cap between `from` and a millisecond past the guarded length. */
  ghost predicate Exceeds(c: Config, fails: seq<FailEvent>, key: Key, from: int) {
    FailsWithin(fails, key, from, GuardedLength(c) + 1) > c.maxFailures
  }

  // ---------- The first and the last failure of the interval ----------

  predicate Hit(c: Config, f: FailEvent, key: Key, from: int) {
    f.key == key && from <= f.at <= from + (GuardedLength(c) + 1)
  }

  lemma {:induction false} LastHit(c: Config, fails: seq<FailEvent>, key: Key, from: int) returns (j: nat)
    requires FailsWithin(fails, key, from, GuardedLength(c) + 1) > 0
    ensures j < |fails| && Hit(c, fails[j], key, from)
    ensures FailsWithin(fails[..j], key, from, GuardedLength(c) + 1) + 1 == FailsWithin(fails, key, from, GuardedLength(c) + 1)
  {
    var n := |fails| - 1;
    if Hit(c, fails[n], key, from) {
      j := n;
    } else {
      j := LastHit(c, fails[..n], key, from);
      assert fails[..n][..j] == fails[..j];
    }
  }

  /** If no hit were on a row created before `since`, the window sum would count them all. */
  lemma {:induction false} OldHit(c: Config, fails: seq<FailEvent>, key: Key, from: int, since: int) returns (i: nat)
    requires FailsOnRowsSince(fails, key, since) < FailsWithin(fails, key, from, GuardedLength(c) + 1)
    ensures i < |fails| && Hit(c, fails[i], key, from) && fails[i].created < since
  {
    var n := |fails| - 1;
    if Hit(c, fails[n], key, from) && fails[n].created < since {
      i := n;
    } else {
      i := OldHit(c, fails[..n], key, from, since);
    }
  }

  /**
   * The shape of an excess: failure `i` is in the last millisecond of its code's life, and
   * failure `j` in the first millisecond at which that code has left the lock window.
   */
  ghost predicate Spans(c: Config, fails: seq<FailEvent>, key: Key, i: nat, j: nat) {
    && i < j < |fails| && fails[i].key == key && fails[j].key == key
    && fails[i].at == fails[i].created + Ms(c.ttl) - 1
    && fails[j].at == fails[i].created + Ms(c.lockWindow) + 1
  }

  lemma ExcessSpans(c: Config, w: World, key: Key, from: int) returns (i: nat, j: nat)
    requires History(c, w) && c.lockWindow >= c.ttl && Exceeds(c, w.fails, key, from)
    ensures Spans(c, w.fails, key, i, j) && w.fails[i].at == from
    ensures FailsWithin(w.fails[..j], key, from, GuardedLength(c) + 1) >= c.maxFailures
  {
    i, j := SpanOf(c, w.fails, w.table.nextId, w.now, key, from);
  }

  lemma LockAt(c: Config, fails: seq<FailEvent>, j: nat)
    requires LockChecked(c, fails) && j < |fails|
    ensures FailsOnRowsSince(fails[..j], fails[j].key, fails[j].at - Ms(c.lockWindow)) < c.maxFailures
  {
    assert PassedLock(c, fails[..j], fails[j].key, fails[j].at);
  }

  /** The failures before the last one, and the last one. */
  lemma FirstOf(c: Config, before: seq<FailEvent>, last: FailEvent, key: Key, from: int) returns (i: nat)
    requires c.lockWindow >= c.ttl && Hit(c, last, key, from)
    requires forall k :: 0 <= k < |before| ==> before[k].at - Ms(c.ttl) < before[k].created
    requires FailsOnRowsSince(before, key, last.at - Ms(c.lockWindow)) < FailsWithin(before, key, from, GuardedLength(c) + 1)
    ensures i < |before| && before[i].key == key && before[i].at == from
    ensures before[i].at == before[i].created + Ms(c.ttl) - 1 && last.at == before[i].created + Ms(c.lockWindow) + 1
  {
    i := OldHit(c, before, key, from, last.at - Ms(c.lockWindow));
  }

  lemma AliveBefore(c: Config, fails: seq<FailEvent>, nextId: nat, now: int, j: nat)
    requires FailsTimed(c, fails, nextId, now) && j <= |fails|
    ensures forall k :: 0 <= k < j ==> fails[..j][k].at - Ms(c.ttl) < fails[..j][k].created
  {
    forall k | 0 <= k < j
      ensures fails[k].at - Ms(c.ttl) < fails[k].created
    {
      assert fails[k] in fails;
    }
  }

  /** The last failure of an excess, against those before it. */
  ghost predicate LastOfExcess(c: Config, fails: seq<FailEvent>, key: Key, from: int, j: nat) {
    && j < |fails| && Hit(c, fails[j], key, from)
    && FailsOnRowsSince(fails[..j], key, fails[j].at - Ms(c.lockWindow)) < c.maxFailures
    && FailsWithin(fails[..j], key, from, GuardedLength(c) + 1) >= c.maxFailures
    && forall k :: 0 <= k < j ==> fails[..j][k].at - Ms(c.ttl) < fails[..j][k].created
  }

  lemma FindLast(c: Config, fails: seq<FailEvent>, nextId: nat, now: int, key: Key, from: int) returns (j: nat)
    requires LockChecked(c, fails) && FailsTimed(c, fails, nextId, now) && Exceeds(c, fails, key, from)
    ensures LastOfExcess(c, fails, key, from, j)
  {
    j := LastHit(c, fails, key, from);
    LockAt(c, fails, j);
    AliveBefore(c, fails, nextId, now, j);
  }

  lemma SpanFrom(c: Config, fails: seq<FailEvent>, key: Key, from: int, j: nat) returns (i: nat)
    requires c.lockWindow >= c.ttl && LastOfExcess(c, fails, key, from, j)
    ensures Spans(c, fails, key, i, j) && fails[i].at == from
  {
    i := FirstOf(c, fails[..j], fails[j], key, from);
    assert fails[..j][i] == fails[i];
  }

  lemma SpanOf(c: Config, fails: seq<FailEvent>, nextId: nat, now: int, key: Key, from: int) returns (i: nat, j: nat)
    requires LockChecked(c, fails) && FailsTimed(c, fails, nextId, now) && c.lockWindow >= c.ttl && Exceeds(c, fails, key, from)
    ensures Spans(c, fails, key, i, j) && fails[i].at == from
    ensures FailsWithin(fails[..j], key, from, GuardedLength(c) + 1) >= c.maxFailures
  {
    j := FindLast(c, fails, nextId, now, key, from);
    i := SpanFrom(c, fails, key, from, j);
  }

  // ---------- Every hit is on the first code or on a later one ----------

  /** A code of the key issued after the first one has expired its last millisecond, and by `until`. */
  predicate LaterCode(key: Key, id: nat, from: int, until: int, e: IssueEvent) {
    e.key == key && e.id > id && from <= e.at <= until
  }

  function CodeOf(f: FailEvent): IssueEvent {
    IssueEvent(f.key, f.created, f.id)
  }

  lemma HitOnLaterCode(c: Config, w: World, key: Key, i: nat, j: nat, k: nat)
    requires History(c, w) && Spans(c, w.fails, key, i, j) && c.ttl > 0
    requires k <= j && Hit(c, w.fails[k], key, w.fails[i].at)
    ensures w.fails[k].id == w.fails[i].id || LaterCode(key, w.fails[i].id, w.fails[i].at, w.fails[j].at, CodeOf(w.fails[k]))
    ensures w.fails[i].created <= w.fails[k].created
  {
    assert w.fails[k] in w.fails && w.fails[i] in w.fails;
    assert w.fails[k].at <= w.fails[j].at;
    SameOrLater(c, w.issues, w.table.nextId, w.fails, w.fails[i], w.fails[k], w.fails[j].at);
  }

  lemma SameOrLater(c: Config, issues: seq<IssueEvent>, nextId: nat, fails: seq<FailEvent>, first: FailEvent, f: FailEvent, until: int)
    requires IssuesOrdered(issues, nextId) && FailsOrdered(issues, fails)
    requires first in fails && f in fails && CodeOf(first) in issues && CodeOf(f) in issues
    requires f.key == first.key && first.at == first.created + Ms(c.ttl) - 1 && first.at <= f.at <= until
    requires c.ttl > 0
    ensures f.id == first.id || LaterCode(first.key, first.id, first.at, until, CodeOf(f))
    ensures first.created <= f.created
  {
    if f.id > first.id {
      assert first.at <= CodeOf(f).at;
    } else if f.id == first.id {
      SameIssue(issues, nextId, CodeOf(f), CodeOf(first));
    }
  }

  // ---------- Failures and the codes they are on ----------

  function OnRow(fails: seq<FailEvent>, p: IssueEvent -> bool): IssueEvent -> nat {
    (e: IssueEvent) => if p(e) then FailsOnRow(fails, e.id) else 0
  }

  function OfCode(p: IssueEvent -> bool): FailEvent -> bool {
    (f: FailEvent) => p(CodeOf(f))
  }

  /** Each failure is on an issued code, so counting by code misses none. */
  lemma {:induction false} CountByCode(issues: seq<IssueEvent>, fails: seq<FailEvent>, p: IssueEvent -> bool)
    requires forall f :: f in fails ==> CodeOf(f) in issues
    ensures Count(fails, OfCode(p)) <= Total(issues, OnRow(fails, p))
  {
    if fails != [] {
      var n := |fails| - 1;
      var f := fails[n];
      CountByCode(issues, fails[..n], p);
      assert f in fails;
      if p(CodeOf(f)) {
        var k :| 0 <= k < |issues| && issues[k] == CodeOf(f);
        TotalRaise(issues, k, OnRow(fails[..n], p), OnRow(fails, p));
      } else {
        TotalAtMost(issues, OnRow(fails[..n], p), issues, OnRow(fails, p));
      }
    }
  }

  lemma {:induction false} CodesTimesAttempts(issues: seq<IssueEvent>, fails: seq<FailEvent>, p: IssueEvent -> bool, cap: nat)
    requires forall id :: FailsOnRow(fails, id) <= cap
    ensures Total(issues, OnRow(fails, p)) <= cap * Count(issues, p)
  {
    if issues != [] {
      var n := |issues| - 1;
      CodesTimesAttempts(issues[..n], fails, p, cap);
      assert cap * (Count(issues[..n], p) + 1) == cap * Count(issues[..n], p) + cap;
    }
  }

  /** At most the per-code cap of failures for each code. */
  lemma FailuresPerCode(c: Config, w: World, p: IssueEvent -> bool)
    requires History(c, w)
    ensures Count(w.fails, OfCode(p)) <= c.maxAttempts * Count(w.issues, p)
  {
    CountByCode(w.issues, w.fails, p);
    CodesTimesAttempts(w.issues, w.fails, p, c.maxAttempts);
  }

  // ---------- Codes in several issue windows ----------

  predicate IssuedIn(key: Key, after: int, until: int, e: IssueEvent) {
    e.key == key && after < e.at <= until
  }

  lemma {:induction false} OneWindow(issues: seq<IssueEvent>, key: Key, after: int, length: int)
    ensures Count(issues, (e: IssueEvent) => IssuedIn(key, after, after + length, e)) == IssuesWithin(issues, key, after, length)
  {
    if issues != [] {
      OneWindow(issues[..|issues| - 1], key, after, length);
    }
  }

  /** At most the maximum for each of `n` consecutive windows. */
  lemma {:induction false} ManyWindows(c: Config, issues: seq<IssueEvent>, key: Key, after: int, n: nat)
    requires IssuesCapped(c, issues)
    ensures Count(issues, (e: IssueEvent) => IssuedIn(key, after, after + n * Ms(c.issueWindow), e)) <= n * c.maxIssues
  {
    var length := Ms(c.issueWindow);
    if n == 0 {
      TotalZero(issues, Indicator((e: IssueEvent) => IssuedIn(key, after, after + 0 * length, e)));
    } else {
      var mid := after + (n - 1) * length;
      assert n * length == (n - 1) * length + length && n * c.maxIssues == (n - 1) * c.maxIssues + c.maxIssues;
      ManyWindows(c, issues, key, after, n - 1);
      OneWindow(issues, key, mid, length);
      CountSplit(issues, (e: IssueEvent) => IssuedIn(key, after, mid, e), (e: IssueEvent) => IssuedIn(key, mid, mid + length, e),
                 (e: IssueEvent) => IssuedIn(key, after, after + n * length, e));
    }
  }

  /** Codes confined to so many windows are at most so many times the maximum. */
  lemma WithinWindows(c: Config, issues: seq<IssueEvent>, key: Key, from: int, until: int, p: IssueEvent -> bool, n: nat)
    requires IssuesCapped(c, issues) && until < from + n * Ms(c.issueWindow)
    requires forall e :: e in issues && p(e) ==> e.key == key && from <= e.at <= until
    ensures Count(issues, p) <= n * c.maxIssues
  {
    ManyWindows(c, issues, key, from - 1, n);
    CountAtMost(issues, p, (e: IssueEvent) => IssuedIn(key, from - 1, from - 1 + n * Ms(c.issueWindow), e));
  }

  // ---------- How many codes follow ----------

  function IsHit(c: Config, key: Key, from: int): FailEvent -> bool {
    (f: FailEvent) => Hit(c, f, key, from)
  }

  function IsLater(key: Key, id: nat, from: int, until: int): IssueEvent -> bool {
    (e: IssueEvent) => LaterCode(key, id, from, until, e)
  }

  function IsOn(id: nat): FailEvent -> bool {
    (f: FailEvent) => f.id == id
  }

  lemma {:induction false} HitsAreWithin(c: Config, fails: seq<FailEvent>, key: Key, from: int)
    ensures FailsWithin(fails, key, from, GuardedLength(c) + 1) == Count(fails, IsHit(c, key, from))
  {
    if fails != [] {
      HitsAreWithin(c, fails[..|fails| - 1], key, from);
    }
  }

  lemma {:induction false} OnRowIsCount(fails: seq<FailEvent>, id: nat)
    ensures FailsOnRow(fails, id) == Count(fails, IsOn(id))
  {
    if fails != [] {
      OnRowIsCount(fails[..|fails| - 1], id);
    }
  }

  lemma SplitHits(before: seq<FailEvent>, last: FailEvent, hit: FailEvent -> bool, first: FailEvent -> bool, later: FailEvent -> bool)
    requires hit(last) && forall f :: f in before + [last] && hit(f) ==> first(f) || later(f)
    ensures Count(before, hit) + 1 <= Count(before + [last], first) + Count(before + [last], later)
  {
    CountAppend(before, last, hit);
    CountSplit(before + [last], first, later, hit);
  }

  lemma HitsOnCodes(c: Config, w: World, key: Key, i: nat, j: nat)
    requires History(c, w) && Spans(c, w.fails, key, i, j) && c.ttl > 0
    ensures forall f :: f in w.fails[..j + 1] && Hit(c, f, key, w.fails[i].at) ==>
              f.id == w.fails[i].id || LaterCode(key, w.fails[i].id, w.fails[i].at, w.fails[j].at, CodeOf(f))
  {
    forall f | f in w.fails[..j + 1] && Hit(c, f, key, w.fails[i].at)
      ensures f.id == w.fails[i].id || LaterCode(key, w.fails[i].id, w.fails[i].at, w.fails[j].at, CodeOf(f))
    {
      var k :| 0 <= k <= j && w.fails[k] == f;
      HitOnLaterCode(c, w, key, i, j, k);
    }
  }

  /** The failures of an excess, split over the first code and the later ones. */
  lemma HitsSplit(c: Config, fails: seq<FailEvent>, key: Key, i: nat, j: nat)
    requires Spans(c, fails, key, i, j) && c.lockWindow >= c.ttl
    requires forall f :: f in fails[..j + 1] && Hit(c, f, key, fails[i].at) ==>
               f.id == fails[i].id || LaterCode(key, fails[i].id, fails[i].at, fails[j].at, CodeOf(f))
    requires FailsWithin(fails[..j], key, fails[i].at, GuardedLength(c) + 1) >= c.maxFailures
    ensures c.maxFailures + 1 <= Count(fails, IsOn(fails[i].id)) + Count(fails, OfCode(IsLater(key, fails[i].id, fails[i].at, fails[j].at)))
  {
    var first := IsOn(fails[i].id);
    var later := OfCode(IsLater(key, fails[i].id, fails[i].at, fails[j].at));
    assert fails[..j + 1] == fails[..j] + [fails[j]];
    HitsAreWithin(c, fails[..j], key, fails[i].at);
    SplitHits(fails[..j], fails[j], IsHit(c, key, fails[i].at), first, later);
    TotalPrefix(fails, j + 1, Indicator(first));
    TotalPrefix(fails, j + 1, Indicator(later));
  }

  lemma SmallerFactor(a: nat, x: nat, y: nat)
    ensures a * x < a * y ==> x < y
  {
    if x >= y {
      assert a * x == a * y + a * (x - y);
    }
  }

  lemma Quotient(failures: nat, attempts: nat, codes: nat)
    requires attempts > 0 && failures + 1 <= attempts + attempts * codes
    ensures failures / attempts <= codes
  {
    var q := failures / attempts;
    assert attempts * q <= failures < attempts + attempts * codes == attempts * (codes + 1);
    SmallerFactor(attempts, q, codes + 1);
  }

  /** The later codes of an excess are as many as it takes. */
  lemma LaterCodesNeeded(c: Config, w: World, key: Key, i: nat, j: nat)
    requires ValidConfig(c) && c.lockWindow >= c.ttl && History(c, w) && Spans(c, w.fails, key, i, j)
    requires FailsWithin(w.fails[..j], key, w.fails[i].at, GuardedLength(c) + 1) >= c.maxFailures
    ensures Count(w.issues, IsLater(key, w.fails[i].id, w.fails[i].at, w.fails[j].at)) >= CodesNeeded(c)
  {
    var later := IsLater(key, w.fails[i].id, w.fails[i].at, w.fails[j].at);
    HitsOnCodes(c, w, key, i, j);
    HitsSplit(c, w.fails, key, i, j);
    OnRowIsCount(w.fails, w.fails[i].id);
    FailuresPerCode(c, w, later);
    Quotient(c.maxFailures, c.maxAttempts, Count(w.issues, later));
    LastIsLater(c, w, key, i, j);
  }

  /** The last failure cannot be on the first code, which has expired. */
  lemma LastIsLater(c: Config, w: World, key: Key, i: nat, j: nat)
    requires c.lockWindow >= c.ttl && c.ttl > 0 && History(c, w) && Spans(c, w.fails, key, i, j)
    ensures w.fails[j].id > w.fails[i].id
    ensures LaterCode(key, w.fails[i].id, w.fails[i].at, w.fails[j].at, CodeOf(w.fails[j]))
    ensures Count(w.issues, IsLater(key, w.fails[i].id, w.fails[i].at, w.fails[j].at)) >= 1
  {
    var later := IsLater(key, w.fails[i].id, w.fails[i].at, w.fails[j].at);
    HitOnLaterCode(c, w, key, i, j, j);
    assert w.fails[i] in w.fails && w.fails[j] in w.fails;
    assert CodeOf(w.fails[j]) in w.issues;
    AliveBefore(c, w.fails, w.table.nextId, w.now, j + 1);
    assert w.fails[..j + 1][j] == w.fails[j];
    if w.fails[j].id == w.fails[i].id {
      SameIssue(w.issues, w.table.nextId, CodeOf(w.fails[j]), CodeOf(w.fails[i]));
      assert false;
    }
    CountMore(w.issues, CodeOf(w.fails[j]), (e: IssueEvent) => false, later);
  }

  // ---------- The issue rate ----------

  lemma FirstIssued(c: Config, w: World, i: nat)
    requires History(c, w) && i < |w.fails|
    ensures CodeOf(w.fails[i]) in w.issues && IssuesCapped(c, w.issues)
  {
    assert w.fails[i] in w.fails;
  }

  /** Codes in the interval, besides the first one at its start. */
  lemma RateNeeded(c: Config, issues: seq<IssueEvent>, key: Key, first: FailEvent, until: int)
    requires ValidConfig(c) && IssuesCapped(c, issues) && CodeOf(first) in issues
    requires first.key == key && first.at == first.created + Ms(c.ttl) - 1 && until == first.created + Ms(c.lockWindow) + 1
    requires Count(issues, IsLater(key, first.id, first.at, until)) >= CodesNeeded(c) >= 1
    ensures RateAdmits(c)
  {
    var later := IsLater(key, first.id, first.at, until);
    AfterExpiry(c, issues, key, first, until, later, CodesNeeded(c));
    FromFirst(c, issues, key, first, until, later, CodesNeeded(c));
  }

  lemma AfterExpiry(c: Config, issues: seq<IssueEvent>, key: Key, first: FailEvent, until: int, later: IssueEvent -> bool, q: nat)
    requires IssuesCapped(c, issues) && c.maxIssues > 0 && q >= 1
    requires first.at == first.created + Ms(c.ttl) - 1 && until == first.created + Ms(c.lockWindow) + 1
    requires forall e :: e in issues && later(e) ==> e.key == key && first.at <= e.at <= until
    requires Count(issues, later) >= q
    ensures c.ttl + (q - 1) / c.maxIssues * c.issueWindow <= c.lockWindow
  {
    var n := (q - 1) / c.maxIssues;
    if c.ttl + n * c.issueWindow > c.lockWindow {
      assert n * Ms(c.issueWindow) == n * c.issueWindow * 1000;
      WithinWindows(c, issues, key, first.at, until, later, n);
      WholeWindows(q - 1, c.maxIssues);
    }
  }

  lemma WholeWindows(q: nat, size: nat)
    requires size > 0
    ensures q / size * size <= q
  {
  }

  lemma FromFirst(c: Config, issues: seq<IssueEvent>, key: Key, first: FailEvent, until: int, later: IssueEvent -> bool, q: nat)
    requires IssuesCapped(c, issues) && c.maxIssues > 0 && c.ttl > 0
    requires first.key == key && first.at == first.created + Ms(c.ttl) - 1 && until == first.created + Ms(c.lockWindow) + 1
    requires CodeOf(first) in issues
    requires forall e :: e in issues && later(e) ==> e.key == key && first.at <= e.at <= until
    requires Count(issues, later) >= q
    ensures q / c.maxIssues * c.issueWindow <= c.lockWindow
  {
    var n := q / c.maxIssues;
    if n * c.issueWindow > c.lockWindow {
      var all := (e: IssueEvent) => e.key == key && first.created <= e.at <= until;
      assert n * Ms(c.issueWindow) == n * c.issueWindow * 1000;
      assert !later(CodeOf(first));
      CountMore(issues, CodeOf(first), later, all);
      WithinWindows(c, issues, key, first.created, until, all, n);
      WholeWindows(q, c.maxIssues);
    }
  }

  // ---------- The issue before the last code ----------

  lemma {:induction false} NextOf(issues: seq<IssueEvent>, a: nat, b: nat) returns (k: nat)
    requires a < b < |issues| && issues[a].key == issues[b].key
    ensures Successive(issues, a, k) && k <= b
    decreases b
  {
    if m: nat :| a < m < b && issues[m].key == issues[a].key {
      k := NextOf(issues, a, m);
    } else {
      k := b;
    }
  }

  lemma {:induction false} PreviousOf(issues: seq<IssueEvent>, a: nat, b: nat) returns (k: nat)
    requires a < b < |issues| && issues[a].key == issues[b].key
    ensures Successive(issues, k, b) && a <= k
    decreases b - a
  {
    if m: nat :| a < m < b && issues[m].key == issues[a].key {
      k := PreviousOf(issues, m, b);
    } else {
      k := a;
    }
  }

  lemma IndexOf(issues: seq<IssueEvent>, nextId: nat, e: IssueEvent, f: IssueEvent) returns (a: nat, b: nat)
    requires IssuesOrdered(issues, nextId) && e in issues && f in issues && e.id < f.id
    ensures a < b < |issues| && issues[a] == e && issues[b] == f
  {
    a :| 0 <= a < |issues| && issues[a] == e;
    b :| 0 <= b < |issues| && issues[b] == f;
  }

  lemma {:induction false} UpToHolds(fails: seq<FailEvent>, key: Key, since: int, id: nat, f: FailEvent)
    requires f in fails && f.key == key && f.created >= since && f.id <= id
    ensures FailsUpTo(fails, key, since, id) >= 1
  {
    var n := |fails| - 1;
    if fails[n] != f {
      assert f in fails[..n];
      UpToHolds(fails[..n], key, since, id, f);
    }
  }

  /** A cap of one: the first failure itself keeps the first code unconsumed until it leaves the window. */
  lemma SingleFailureNeeded(c: Config, issues: seq<IssueEvent>, fails: seq<FailEvent>, nextId: nat, first: FailEvent, last: IssueEvent)
    requires c.maxFailures == 1 && c.lockWindow >= c.ttl
    requires IssuesOrdered(issues, nextId) && Relieved(c, issues, fails)
    requires first in fails && CodeOf(first) in issues && last in issues && last.key == first.key && first.id < last.id
    requires last.at <= first.created + Ms(c.lockWindow) + 1
    ensures c.cooldown <= c.lockWindow || c.issueWindow <= c.lockWindow
  {
    var a, b := IndexOf(issues, nextId, CodeOf(first), last);
    var k := NextOf(issues, a, b);
    assert Relief(c, fails, issues[a], issues[k].at) && issues[k].at <= last.at;
    if u :| u <= issues[k].at && ConsumableAt(c, fails, issues[a], u) {
      UpToHolds(fails, first.key, u - Ms(c.lockWindow), first.id, first);
    }
  }

  // ---------- One attempt for each code, one issue for each window ----------

  lemma TwoInWindow(c: Config, issues: seq<IssueEvent>, nextId: nat, a: nat, b: nat)
    requires c.maxIssues == 1 && IssuesCapped(c, issues) && IssuesOrdered(issues, nextId)
    requires a < b < |issues| && issues[a].key == issues[b].key
    ensures issues[a].at + Ms(c.issueWindow) <= issues[b].at
  {
    if issues[b].at < issues[a].at + Ms(c.issueWindow) {
      var none, one, two := (e: IssueEvent) => false, (e: IssueEvent) => e == issues[a], (e: IssueEvent) => e == issues[a] || e == issues[b];
      CountMore(issues, issues[a], none, one);
      CountMore(issues, issues[b], one, two);
      WithinWindows(c, issues, issues[a].key, issues[a].at, issues[b].at, two, 1);
      assert false;
    }
  }

  /** The hits before the last one: on codes up to `p`, the one issued before the last one. */
  ghost predicate HitsUpTo(c: Config, fails: seq<FailEvent>, first: FailEvent, j: nat, p: IssueEvent) {
    && j <= |fails|
    && forall f :: f in fails[..j] && Hit(c, f, first.key, first.at) ==>
         first.created <= f.created && (f.id == first.id || LaterCode(first.key, first.id, first.at, p.at, CodeOf(f))) && f.id <= p.id
  }

  lemma {:induction false} HitsCountUpTo(c: Config, fails: seq<FailEvent>, first: FailEvent, since: int, id: nat)
    requires forall f :: f in fails && Hit(c, f, first.key, first.at) ==> since <= f.created && f.id <= id
    ensures FailsUpTo(fails, first.key, since, id) >= FailsWithin(fails, first.key, first.at, GuardedLength(c) + 1)
  {
    if fails != [] {
      HitsCountUpTo(c, fails[..|fails| - 1], first, since, id);
      assert fails[|fails| - 1] in fails;
    }
  }

  lemma {:induction false} UpToPrefix(fails: seq<FailEvent>, j: nat, key: Key, since: int, id: nat)
    requires j <= |fails|
    ensures FailsUpTo(fails[..j], key, since, id) <= FailsUpTo(fails, key, since, id)
  {
    if j < |fails| {
      assert fails[..|fails| - 1][..j] == fails[..j];
      UpToPrefix(fails[..|fails| - 1], j, key, since, id);
    } else {
      assert fails[..j] == fails;
    }
  }

  lemma HitsBeforeSplit(c: Config, fails: seq<FailEvent>, first: FailEvent, j: nat, p: IssueEvent)
    requires HitsUpTo(c, fails, first, j, p)
    requires FailsWithin(fails[..j], first.key, first.at, GuardedLength(c) + 1) >= c.maxFailures
    ensures c.maxFailures <= Count(fails, IsOn(first.id)) + Count(fails, OfCode(IsLater(first.key, first.id, first.at, p.at)))
  {
    var later := OfCode(IsLater(first.key, first.id, first.at, p.at));
    HitsAreWithin(c, fails[..j], first.key, first.at);
    CountSplit(fails[..j], IsOn(first.id), later, IsHit(c, first.key, first.at));
    TotalPrefix(fails, j, Indicator(IsOn(first.id)));
    TotalPrefix(fails, j, Indicator(later));
  }

  lemma RowCap(c: Config, w: World, id: nat)
    requires History(c, w)
    ensures FailsOnRow(w.fails, id) <= c.maxAttempts && IssuesCapped(c, w.issues)
  {
  }

  lemma OnePerCode(c: Config, w: World, p: IssueEvent -> bool)
    requires History(c, w) && c.maxAttempts == 1
    ensures Count(w.fails, OfCode(p)) <= Count(w.issues, p)
  {
    FailuresPerCode(c, w, p);
    TimesOne(c.maxAttempts, Count(w.issues, p));
  }

  lemma TimesOne(one: nat, n: nat)
    requires one == 1
    ensures one * n == n
  {
  }

  /** The codes up to `p` absorb all but the last failure, one each. */
  lemma CodesBefore(c: Config, w: World, first: FailEvent, p: IssueEvent)
    requires History(c, w) && c.maxAttempts == 1
    requires c.maxFailures <= Count(w.fails, IsOn(first.id)) + Count(w.fails, OfCode(IsLater(first.key, first.id, first.at, p.at)))
    ensures Count(w.issues, IsLater(first.key, first.id, first.at, p.at)) >= c.maxFailures - 1
  {
    OnRowIsCount(w.fails, first.id);
    RowCap(c, w, first.id);
    OnePerCode(c, w, IsLater(first.key, first.id, first.at, p.at));
  }

  lemma ManyBefore(c: Config, w: World, first: FailEvent, j: nat, p: IssueEvent)
    requires History(c, w) && c.maxAttempts == 1 && HitsUpTo(c, w.fails, first, j, p)
    requires FailsWithin(w.fails[..j], first.key, first.at, GuardedLength(c) + 1) >= c.maxFailures
    ensures Count(w.issues, IsLater(first.key, first.id, first.at, p.at)) >= c.maxFailures - 1
  {
    HitsBeforeSplit(c, w.fails, first, j, p);
    CodesBefore(c, w, first, p);
  }

  /** So `until` is late. */
  lemma LateCodes(c: Config, issues: seq<IssueEvent>, first: FailEvent, until: int, n: nat)
    requires IssuesCapped(c, issues) && c.maxIssues == 1 && c.ttl > 0 && CodeOf(first) in issues
    requires first.at == first.created + Ms(c.ttl) - 1
    requires Count(issues, IsLater(first.key, first.id, first.at, until)) >= n >= 1
    ensures until >= first.created + n * Ms(c.issueWindow)
  {
    if until < first.created + n * Ms(c.issueWindow) {
      var later := IsLater(first.key, first.id, first.at, until);
      var all := (e: IssueEvent) => e.key == first.key && first.created <= e.at <= until;
      if until >= first.created {
        CountMore(issues, CodeOf(first), later, all);
        WithinWindows(c, issues, first.key, first.created, until, all, n);
      } else {
        TotalZero(issues, Indicator(later));
      }
      assert false;
    }
  }

  /** With one attempt for each code, no failure before the last one is on its code. */
  lemma OneOnLastCode(c: Config, fails: seq<FailEvent>, j: nat, m: nat)
    requires j < |fails| && m < j && FailsOnRow(fails, fails[j].id) <= 1
    ensures fails[m].id != fails[j].id
  {
    if fails[m].id == fails[j].id {
      var same := IsOn(fails[j].id);
      OnRowIsCount(fails, fails[j].id);
      TotalPrefix(fails, j + 1, Indicator(same));
      assert fails[..j + 1] == fails[..j] + [fails[j]];
      CountAppend(fails[..j], fails[j], same);
      assert fails[..j][m] == fails[m];
      CountMore(fails[..j], fails[m], (f: FailEvent) => false, same);
      assert false;
    }
  }

  /** A code of the key older than the last one is no newer than the one issued before it. */
  lemma UpToPrevious(issues: seq<IssueEvent>, nextId: nat, k: nat, b: nat, e: IssueEvent)
    requires IssuesOrdered(issues, nextId) && Successive(issues, k, b) && e in issues && e.key == issues[b].key && e.id < issues[b].id
    ensures e.id <= issues[k].id && e.at <= issues[k].at
  {
    var m :| 0 <= m < |issues| && issues[m] == e;
    assert m < b;
    assert !(k < m < b);
  }

  lemma HitBeforeLast(c: Config, w: World, key: Key, i: nat, j: nat, m: nat, k: nat, b: nat)
    requires ValidConfig(c) && c.maxAttempts == 1 && History(c, w) && Spans(c, w.fails, key, i, j)
    requires m < j && Hit(c, w.fails[m], key, w.fails[i].at)
    requires Successive(w.issues, k, b) && w.issues[b] == CodeOf(w.fails[j])
    ensures w.fails[m].id <= w.issues[k].id && w.fails[i].created <= w.fails[m].created
    ensures w.fails[m].id == w.fails[i].id || LaterCode(key, w.fails[i].id, w.fails[i].at, w.issues[k].at, CodeOf(w.fails[m]))
  {
    HitOnLaterCode(c, w, key, i, j, m);
    RowCap(c, w, w.fails[j].id);
    OneOnLastCode(c, w.fails, j, m);
    FirstIssued(c, w, m);
    FailIdsRise(w.issues, w.fails, m, j);
    UpToPrevious(w.issues, w.table.nextId, k, b, CodeOf(w.fails[m]));
  }

  lemma FailIdsRise(issues: seq<IssueEvent>, fails: seq<FailEvent>, m: nat, j: nat)
    requires FailsOrdered(issues, fails) && m < j < |fails| && fails[m].key == fails[j].key
    ensures fails[m].id <= fails[j].id
  {
  }

  lemma AllHitsUpTo(c: Config, w: World, key: Key, i: nat, j: nat, k: nat, b: nat)
    requires ValidConfig(c) && c.maxAttempts == 1 && History(c, w) && Spans(c, w.fails, key, i, j)
    requires Successive(w.issues, k, b) && w.issues[b] == CodeOf(w.fails[j])
    ensures HitsUpTo(c, w.fails, w.fails[i], j, w.issues[k])
  {
    forall f | f in w.fails[..j] && Hit(c, f, key, w.fails[i].at)
      ensures w.fails[i].created <= f.created && f.id <= w.issues[k].id
      ensures f.id == w.fails[i].id || LaterCode(key, w.fails[i].id, w.fails[i].at, w.issues[k].at, CodeOf(f))
    {
      var m :| 0 <= m < j && w.fails[m] == f;
      HitBeforeLast(c, w, key, i, j, m, k, b);
    }
  }

  lemma NotConsumed(c: Config, fails: seq<FailEvent>, first: FailEvent, j: nat, p: IssueEvent, u: int)
    requires HitsUpTo(c, fails, first, j, p) && FailsWithin(fails[..j], first.key, first.at, GuardedLength(c) + 1) >= c.maxFailures
    requires p.key == first.key && u - Ms(c.lockWindow) <= first.created
    ensures !ConsumableAt(c, fails, p, u)
  {
    HitsCountUpTo(c, fails[..j], first, u - Ms(c.lockWindow), p.id);
    UpToPrefix(fails, j, first.key, u - Ms(c.lockWindow), p.id);
  }

  /** Nothing but the cooldown frees the last issue when codes expire within an issue window. */
  lemma OnlyCooldown(c: Config, fails: seq<FailEvent>, first: FailEvent, j: nat, p: IssueEvent, last: IssueEvent, n: nat)
    requires ValidConfig(c) && c.lockWindow >= c.ttl && c.issueWindow >= c.ttl
    requires HitsUpTo(c, fails, first, j, p) && FailsWithin(fails[..j], first.key, first.at, GuardedLength(c) + 1) >= c.maxFailures
    requires p.key == first.key && p.at >= first.created + n * 1000 && n >= c.issueWindow
    requires p.at + Ms(c.issueWindow) <= last.at <= first.created + Ms(c.lockWindow) + 1
    requires Relief(c, fails, p, last.at)
    ensures n + c.cooldown <= c.lockWindow
  {
    if last.at - p.at < Ms(c.cooldown) {
      var u :| u <= last.at && ConsumableAt(c, fails, p, u);
      NotConsumed(c, fails, first, j, p, u);
      assert false;
    }
  }

  lemma Seconds(n: nat, window: nat)
    ensures n * Ms(window) == n * window * 1000
    ensures n >= 1 ==> n * window >= window
  {
    if n >= 1 {
      assert n * window == (n - 1) * window + window;
    }
  }

  /** The last code and the one issued before it, in an excess. */
  ghost predicate Blocking(c: Config, fails: seq<FailEvent>, first: FailEvent, j: nat, p: IssueEvent, last: IssueEvent) {
    && HitsUpTo(c, fails, first, j, p)
    && p.key == first.key && p.at >= first.created + (c.maxFailures - 1) * Ms(c.issueWindow)
    && p.at + Ms(c.issueWindow) <= last.at <= first.created + Ms(c.lockWindow) + 1
    && Relief(c, fails, p, last.at)
  }

  lemma FindBlocking(c: Config, w: World, key: Key, i: nat, j: nat) returns (p: IssueEvent, last: IssueEvent)
    requires ValidConfig(c) && c.lockWindow >= c.ttl && c.maxFailures >= 2 && c.maxAttempts == 1 && c.maxIssues == 1
    requires History(c, w) && Spans(c, w.fails, key, i, j)
    requires FailsWithin(w.fails[..j], key, w.fails[i].at, GuardedLength(c) + 1) >= c.maxFailures
    ensures Blocking(c, w.fails, w.fails[i], j, p, last)
  {
    FirstIssued(c, w, i);
    FirstIssued(c, w, j);
    LastIsLater(c, w, key, i, j);
    var a, b := IndexOf(w.issues, w.table.nextId, CodeOf(w.fails[i]), CodeOf(w.fails[j]));
    var k := PreviousOf(w.issues, a, b);
    p, last := w.issues[k], w.issues[b];
    AllHitsUpTo(c, w, key, i, j, k, b);
    ManyBefore(c, w, w.fails[i], j, p);
    RowCap(c, w, w.fails[i].id);
    LateCodes(c, w.issues, w.fails[i], p.at, c.maxFailures - 1);
    TwoInWindow(c, w.issues, w.table.nextId, k, b);
    ReliefOf(c, w, k, b);
  }

  lemma BlockedUntilCool(c: Config, fails: seq<FailEvent>, first: FailEvent, j: nat, p: IssueEvent, last: IssueEvent)
    requires ValidConfig(c) && c.maxFailures >= 2 && c.lockWindow >= c.ttl && c.issueWindow >= c.ttl
    requires Blocking(c, fails, first, j, p, last)
    requires FailsWithin(fails[..j], first.key, first.at, GuardedLength(c) + 1) >= c.maxFailures
    ensures (c.maxFailures - 1) * c.issueWindow + c.cooldown <= c.lockWindow
  {
    Seconds(c.maxFailures - 1, c.issueWindow);
    OnlyCooldown(c, fails, first, j, p, last, (c.maxFailures - 1) * c.issueWindow);
  }

  lemma SingleIssueNeeded(c: Config, w: World, key: Key, i: nat, j: nat)
    requires ValidConfig(c) && c.lockWindow >= c.ttl && c.maxFailures >= 2 && c.maxAttempts == 1 && c.maxIssues == 1
    requires History(c, w) && Spans(c, w.fails, key, i, j) && c.issueWindow >= c.ttl
    requires FailsWithin(w.fails[..j], key, w.fails[i].at, GuardedLength(c) + 1) >= c.maxFailures
    ensures (c.maxFailures - 1) * c.issueWindow + c.cooldown <= c.lockWindow
  {
    var p, last := FindBlocking(c, w, key, i, j);
    BlockedUntilCool(c, w.fails, w.fails[i], j, p, last);
  }

  lemma ReliefOf(c: Config, w: World, k: nat, b: nat)
    requires History(c, w) && Successive(w.issues, k, b)
    ensures Relief(c, w.fails, w.issues[k], w.issues[b].at)
  {
  }

  // ---------- What an excess needs ----------

  /** No run of settings that do not admit it puts more failures than the cap into the interval. */
  lemma ExcessNeeds(c: Config, start: int, calls: seq<Call>, key: Key, from: int)
    requires ValidConfig(c) && c.lockWindow >= c.ttl && Chronological(start, calls)
    requires Exceeds(c, Run(c, start, calls).fails, key, from)
    ensures AdmitsExcess(c)
  {
    RunKeepsHistory(c, start, calls);
    HistoryNeeds(c, Run(c, start, calls), key, from);
  }

  lemma HistoryNeeds(c: Config, w: World, key: Key, from: int)
    requires ValidConfig(c) && c.lockWindow >= c.ttl && History(c, w) && Exceeds(c, w.fails, key, from)
    ensures AdmitsExcess(c)
  {
    var i, j := ExcessSpans(c, w, key, from);
    LaterCodesNeeded(c, w, key, i, j);
    FirstIssued(c, w, i);
    FirstIssued(c, w, j);
    NeededIsPositive(c);
    RateNeeded(c, w.issues, key, w.fails[i], w.fails[j].at);
    LastIsLater(c, w, key, i, j);
    if c.maxFailures == 1 {
      FirstFailureFrees(c, w, i, j);
    }
    if c.maxFailures >= 2 && c.maxAttempts == 1 && c.maxIssues == 1 && c.issueWindow >= c.ttl {
      SingleIssueNeeded(c, w, key, i, j);
    }
  }

  lemma NeededIsPositive(c: Config)
    requires ValidConfig(c)
    ensures CodesNeeded(c) >= 1
  {
  }

  lemma FirstFailureFrees(c: Config, w: World, i: nat, j: nat)
    requires c.maxFailures == 1 && c.lockWindow >= c.ttl && History(c, w)
    requires j < |w.fails| && Spans(c, w.fails, w.fails[j].key, i, j)
    requires CodeOf(w.fails[i]) in w.issues && CodeOf(w.fails[j]) in w.issues && w.fails[i].id < w.fails[j].id
    requires w.fails[j].created <= w.fails[j].at
    ensures c.cooldown <= c.lockWindow || c.issueWindow <= c.lockWindow
  {
    assert w.fails[i] in w.fails;
    SingleFailureNeeded(c, w.issues, w.fails, w.table.nextId, w.fails[i], CodeOf(w.fails[j]));
  }
}
