/**
 * Which codes are accepted. Every answer of a verification is told from the history alone:
 * the code last sent to the phone, when it was sent, and what was tried on it since.
 */
module OtpCodes {
  import opened Options
  import opened OtpTable
  import opened OtpService
  import opened OtpRuns

  // ---------- One issue and one verification ----------

  /** The newest active row decides. */
  lemma VerifyAnswers(c: Config, t: Table, key: Key, code: string, now: int, i: nat)
    requires i < |t.rows| && t.rows[i].key == key && t.rows[i].consumedAt.None? && t.rows[i].expiresAt > now
    requires forall j :: i < j < |t.rows| ==> !(t.rows[j].key == key && t.rows[j].consumedAt.None? && t.rows[j].expiresAt > now)
    requires SumSince(t.rows, key, now - 1000 * c.lockWindow) < c.maxFailures
    ensures VerifyStep(c, t, key, code, now).1 ==
              if t.rows[i].attempts >= c.maxAttempts then TooManyAttempts
              else if t.rows[i].codeHash == Digest(code) then Verified
              else InvalidCode
    ensures Active(t.rows, key, now) == Some(t.rows[i])
  {
    NoneActive(t.rows, key, now);
    var k := ActiveIndex(t.rows, key, now);
    assert k == i;
  }

  /**
   * The code that was sent is accepted, and no other: the fixed code when one is configured,
   * and otherwise the generated one, until its lifetime is over.
   */
  lemma SentCodeVerifies(c: Config, t: Table, key: Key, generated: string, at: int, code: string, now: int)
    requires IssueStep(c, t, key, generated, at).1.Issued? && at <= now < at + 1000 * c.ttl && c.maxAttempts > 0
    requires SumSince(IssueStep(c, t, key, generated, at).0.rows, key, now - 1000 * c.lockWindow) < c.maxFailures
    ensures IssueStep(c, t, key, generated, at).1 == Issued(at + 1000 * c.ttl)
    ensures VerifyStep(c, IssueStep(c, t, key, generated, at).0, key, code, now).1 ==
              if code == (if c.fixedCode.Some? then c.fixedCode.value else generated) then Verified else InvalidCode
  {
    var out := IssueStep(c, t, key, generated, at).0;
    IssuedRow(c, t, key, generated, at);
    FreshRowAnswers(c, out, key, if c.fixedCode.Some? then c.fixedCode.value else generated, at, code, now);
  }

  /** What an issue that succeeds leaves at the end of the table. */
  lemma IssuedRow(c: Config, t: Table, key: Key, generated: string, at: int)
    requires IssueStep(c, t, key, generated, at).1.Issued?
    ensures var out := IssueStep(c, t, key, generated, at).0;
            && out.rows != []
            && FreshRow(c, out.rows[|out.rows| - 1], key, if c.fixedCode.Some? then c.fixedCode.value else generated, at)
    ensures IssueStep(c, t, key, generated, at).1 == Issued(at + 1000 * c.ttl)
  {
  }

  predicate FreshRow(c: Config, r: Row, key: Key, sent: string, at: int) {
    r.key == key && r.codeHash == Digest(sent) && r.consumedAt.None? && r.attempts == 0 && r.expiresAt == at + 1000 * c.ttl
  }

  lemma FreshRowAnswers(c: Config, t: Table, key: Key, sent: string, at: int, code: string, now: int)
    requires t.rows != [] && FreshRow(c, t.rows[|t.rows| - 1], key, sent, at)
    requires at <= now < at + 1000 * c.ttl && c.maxAttempts > 0
    requires SumSince(t.rows, key, now - 1000 * c.lockWindow) < c.maxFailures
    ensures VerifyStep(c, t, key, code, now).1 == if code == sent then Verified else InvalidCode
  {
    VerifyAnswers(c, t, key, code, now, |t.rows| - 1);
  }

  // ---------- The book of a phone ----------

  /** The code last sent, when, how often it was missed since, and whether it was used up. */
  datatype Entry = Entry(code: string, at: int, misses: nat, spent: bool)

  function Noted(c: Config, t: Table, book: Option<Entry>, key: Key, call: Call): Option<Entry> {
    match call.op
    case Issue(k, generated) =>
      if k == key && IssueStep(c, t, k, generated, call.at).1.Issued?
      then Some(Entry(if c.fixedCode.Some? then c.fixedCode.value else generated, call.at, 0, false))
      else book
    case Verify(k, code) =>
      if k != key || book.None? then book
      else
        (match VerifyStep(c, t, k, code, call.at).1
         case InvalidCode => Some(book.value.(misses := book.value.misses + 1))
         case Verified => Some(book.value.(spent := true))
         case TooManyAttempts => Some(book.value.(spent := true))
         case _ => book)
    case Prune => book
  }

  /** Told from the calls and what they returned. */
  function Book(c: Config, start: int, calls: seq<Call>, key: Key): Option<Entry> {
    if calls == [] then None
    else
      var n := |calls| - 1;
      Noted(c, Run(c, start, calls[..n]).table, Book(c, start, calls[..n], key), key, calls[n])
  }

  /** The row holds the code of the entry, and nothing was tried on it that the entry does not count. */
  predicate Holds(c: Config, r: Row, e: Entry) {
    && r.codeHash == Digest(e.code) && r.createdAt == e.at && r.expiresAt == e.at + 1000 * c.ttl
    && r.attempts == e.misses && !e.spent
  }

  predicate Open(r: Row, key: Key) {
    r.key == key && r.consumedAt.None?
  }

  ghost predicate HasOpen(rows: seq<Row>, key: Key) {
    exists i :: 0 <= i < |rows| && Open(rows[i], key)
  }

  /** An open row of the phone is the one in the book; one in the book is there while it is kept. */
  ghost predicate Agrees(c: Config, rows: seq<Row>, now: int, key: Key, book: Option<Entry>) {
    && (forall i :: 0 <= i < |rows| && Open(rows[i], key) ==> book.Some? && Holds(c, rows[i], book.value))
    && (book.Some? && !book.value.spent && book.value.at >= Cutoff(c, now) ==> HasOpen(rows, key))
    && (book.Some? ==> book.value.at <= now)
  }

  lemma IssueAgrees(c: Config, t: Table, k: Key, generated: string, now: int, key: Key, book: Option<Entry>)
    requires Agrees(c, t.rows, now, key, book)
    ensures var code := if c.fixedCode.Some? then c.fixedCode.value else generated;
            Agrees(c, RowsAfterIssue(c, t, k, generated, now), now, key, if k == key then Some(Entry(code, now, 0, false)) else book)
  {
    var out := RowsAfterIssue(c, t, k, generated, now);
    assert forall i :: 0 <= i < |t.rows| ==> out[i] == Invalidated(t.rows[i], k, now);
    if k == key {
      assert Open(out[|t.rows|], key);
    } else if HasOpen(t.rows, key) {
      var i :| 0 <= i < |t.rows| && Open(t.rows[i], key);
      assert Open(out[i], key);
    }
  }

  /** A row of another phone changes. */
  lemma OtherAgrees(c: Config, rows: seq<Row>, out: seq<Row>, i: nat, now: int, key: Key, book: Option<Entry>)
    requires Agrees(c, rows, now, key, book) && i < |rows| && rows[i].key != key
    requires |out| == |rows| && out == rows[i := out[i]] && out[i].key == rows[i].key
    ensures Agrees(c, out, now, key, book)
  {
    if HasOpen(rows, key) {
      var j :| 0 <= j < |rows| && Open(rows[j], key);
      assert Open(out[j], key);
    }
  }

  /** The one open row of the phone is missed once more, or consumed. */
  lemma TriedAgrees(c: Config, rows: seq<Row>, out: seq<Row>, i: nat, now: int, key: Key, book: Option<Entry>, next: Entry)
    requires Agrees(c, rows, now, key, book) && i < |rows| && Open(rows[i], key)
    requires forall j :: 0 <= j < |rows| && Open(rows[j], key) ==> j == i
    requires |out| == |rows| && out == rows[i := out[i]] && out[i].key == key
    requires next.at <= now && if Open(out[i], key) then Holds(c, out[i], next) else next.spent
    ensures Agrees(c, out, now, key, Some(next))
  {
    assert Open(out[i], key) ==> HasOpen(out, key);
  }

  lemma SuffixAgrees(c: Config, rows: seq<Row>, m: nat, now: int, key: Key, book: Option<Entry>)
    requires Agrees(c, rows, now, key, book) && m <= |rows| && forall i :: 0 <= i < m ==> rows[i].createdAt < Cutoff(c, now)
    ensures Agrees(c, rows[m..], now, key, book)
  {
    if HasOpen(rows, key) {
      var i :| 0 <= i < |rows| && Open(rows[i], key);
      assert i >= m ==> Open(rows[m..][i - m], key);
    }
  }

  lemma LaterAgrees(c: Config, rows: seq<Row>, now: int, at: int, key: Key, book: Option<Entry>)
    requires Agrees(c, rows, now, key, book) && now <= at
    ensures Agrees(c, rows, at, key, book)
  {
  }

  lemma OnlyOpen(rows: seq<Row>, issues: seq<IssueEvent>, i: nat, key: Key)
    requires NewestOnly(rows, issues) && i < |rows| && Open(rows[i], key)
    ensures forall j :: 0 <= j < |rows| && Open(rows[j], key) ==> j == i
  {
  }

  lemma VerifyAgrees(c: Config, w: World, k: Key, code: string, key: Key, book: Option<Entry>)
    requires Invariant(c, w) && Agrees(c, w.table.rows, w.now, key, book)
    ensures Agrees(c, VerifyStep(c, w.table, k, code, w.now).0.rows, w.now, key, Noted(c, w.table, book, key, Call(Verify(k, code), w.now)))
  {
    if !IsLocked(c, w.table, k, w.now) && Active(w.table.rows, k, w.now).Some? {
      var i := ActiveIndex(w.table.rows, k, w.now);
      ActiveAgrees(c, w.table, w.issues, w.now, k, code, key, book, i);
    }
  }

  lemma ActiveAgrees(c: Config, t: Table, issues: seq<IssueEvent>, now: int, k: Key, code: string, key: Key, book: Option<Entry>, i: nat)
    requires Ordered(t, now) && NewestOnly(t.rows, issues) && Agrees(c, t.rows, now, key, book)
    requires !IsLocked(c, t, k, now) && i < |t.rows| && Active(t.rows, k, now) == Some(t.rows[i])
    ensures Agrees(c, VerifyStep(c, t, k, code, now).0.rows, now, key, Noted(c, t, book, key, Call(Verify(k, code), now)))
  {
    var out := VerifyStep(c, t, k, code, now).0.rows;
    PointUpdate(c, t, now, k, code, i);
    if k != key {
      OtherAgrees(c, t.rows, out, i, now, key, book);
    } else {
      OnlyOpen(t.rows, issues, i, key);
      TriedAgrees(c, t.rows, out, i, now, key, book, Noted(c, t, book, key, Call(Verify(k, code), now)).value);
    }
  }

  lemma PointUpdate(c: Config, t: Table, now: int, k: Key, code: string, i: nat)
    requires Ordered(t, now) && !IsLocked(c, t, k, now) && i < |t.rows| && Active(t.rows, k, now) == Some(t.rows[i])
    ensures var (out, outcome) := VerifyStep(c, t, k, code, now);
            && |out.rows| == |t.rows| && out.rows == t.rows[i := out.rows[i]]
            && (outcome.InvalidCode? || outcome.TooManyAttempts? || outcome.Verified?)
            && out.rows[i] == if outcome.InvalidCode? then t.rows[i].(attempts := t.rows[i].attempts + 1) else t.rows[i].(consumedAt := Some(now))
  {
    IncrementIsPoint(t, now, i);
    assert forall j :: 0 <= j < |t.rows| && j != i ==> t.rows[j].id != t.rows[i].id;
    assert MarkConsumed(t.rows, t.rows[i].id, now) == t.rows[i := t.rows[i].(consumedAt := Some(now))];
  }

  lemma CallAgrees(c: Config, w: World, call: Call, key: Key, book: Option<Entry>)
    requires Invariant(c, w) && w.now == call.at && Agrees(c, w.table.rows, w.now, key, book)
    ensures Agrees(c, Apply(c, w, call).table.rows, call.at, key, Noted(c, w.table, book, key, call))
  {
    match call.op {
      case Issue(k, generated) => IssueAgrees(c, w.table, k, generated, w.now, key, book);
      case Verify(k, code) => VerifyAgrees(c, w, k, code, key, book);
      case Prune =>
        var m := PruneIsSuffix(c, w.table, w.now);
        SuffixAgrees(c, w.table.rows, m, w.now, key, book);
    }
  }

  lemma {:induction false} RunAgrees(c: Config, start: int, calls: seq<Call>, key: Key)
    requires Chronological(start, calls)
    ensures Agrees(c, Run(c, start, calls).table.rows, Run(c, start, calls).now, key, Book(c, start, calls, key))
  {
    if calls != [] {
      var n := |calls| - 1;
      var w := Run(c, start, calls[..n]);
      RunAgrees(c, start, calls[..n], key);
      RunKeepsInvariant(c, start, calls[..n]);
      NextAgrees(c, w, calls[n], key, Book(c, start, calls[..n], key));
    }
  }

  lemma NextAgrees(c: Config, w: World, call: Call, key: Key, book: Option<Entry>)
    requires Invariant(c, w) && w.now <= call.at && Agrees(c, w.table.rows, w.now, key, book)
    ensures Agrees(c, Apply(c, w, call).table.rows, call.at, key, Noted(c, w.table, book, key, call)) && Apply(c, w, call).now == call.at
  {
    Later(c, w, call.at);
    LaterAgrees(c, w.table.rows, w.now, call.at, key, book);
    CallAgrees(c, w.(now := call.at), call, key, book);
    CallKeepsInvariant(c, w, call);
    assert Apply(c, w, call) == Apply(c, w.(now := call.at), call);
  }

  lemma RunAgreesAt(c: Config, start: int, calls: seq<Call>, key: Key, at: int)
    requires Chronological(start, calls) && Run(c, start, calls).now <= at
    ensures Invariant(c, Run(c, start, calls).(now := at))
    ensures Agrees(c, Run(c, start, calls).table.rows, at, key, Book(c, start, calls, key))
  {
    var w := Run(c, start, calls);
    RunAgrees(c, start, calls, key);
    RunKeepsInvariant(c, start, calls);
    Later(c, w, at);
    LaterAgrees(c, w.table.rows, w.now, at, key, Book(c, start, calls, key));
  }

  // ---------- Every answer, from the history ----------

  /** Failures so far on codes sent in the lock window. */
  predicate Locked(c: Config, fails: seq<FailEvent>, key: Key, at: int) {
    FailsOnRowsSince(fails, key, at - 1000 * c.lockWindow) >= c.maxFailures
  }

  /** A code in the book that is neither used up nor expired. */
  predicate Alive(c: Config, book: Option<Entry>, at: int) {
    book.Some? && !book.value.spent && at < book.value.at + 1000 * c.ttl
  }

  lemma LockFromHistory(c: Config, w: World, key: Key)
    requires Invariant(c, w)
    ensures IsLocked(c, w.table, key, w.now) <==> Locked(c, w.fails, key, w.now)
  {
    assert SumSince(w.table.rows, key, w.now - 1000 * c.lockWindow) == FailsOnRowsSince(w.fails, key, w.now - 1000 * c.lockWindow);
  }

  /** An alive code in the book is the newest active row, and the only one. */
  lemma ActiveFromBook(c: Config, rows: seq<Row>, issues: seq<IssueEvent>, now: int, key: Key, book: Option<Entry>)
    requires NewestOnly(rows, issues) && Agrees(c, rows, now, key, book) && c.ttl <= Retention(c)
    ensures Active(rows, key, now).Some? <==> Alive(c, book, now)
    ensures Alive(c, book, now) ==> Holds(c, Active(rows, key, now).value, book.value)
  {
    NoneActive(rows, key, now);
    if Alive(c, book, now) {
      var i :| 0 <= i < |rows| && Open(rows[i], key);
      assert IsActive(rows[i], key, now);
    }
  }

  lemma AnswerFromBook(c: Config, w: World, key: Key, code: string, book: Option<Entry>)
    requires Invariant(c, w) && Agrees(c, w.table.rows, w.now, key, book) && c.ttl <= Retention(c)
    ensures VerifyStep(c, w.table, key, code, w.now).1 ==
              if Locked(c, w.fails, key, w.now) then PhoneLocked
              else if !Alive(c, book, w.now) then NoActiveCode
              else if book.value.misses >= c.maxAttempts then TooManyAttempts
              else if book.value.code == code then Verified
              else InvalidCode
  {
    LockFromHistory(c, w, key);
    ActiveFromBook(c, w.table.rows, w.issues, w.now, key, book);
  }

  /**
   * What a verification answers after any run, told from the history: locked, no code, a code
   * tried too often, the right code, a wrong one. The right code is the one last sent.
   */
  lemma VerificationAnswers(c: Config, start: int, calls: seq<Call>, key: Key, code: string, at: int)
    requires Chronological(start, calls) && Run(c, start, calls).now <= at && c.ttl <= Retention(c)
    ensures var book := Book(c, start, calls, key);
            VerifyStep(c, Run(c, start, calls).table, key, code, at).1 ==
              if Locked(c, Run(c, start, calls).fails, key, at) then PhoneLocked
              else if !Alive(c, book, at) then NoActiveCode
              else if book.value.misses >= c.maxAttempts then TooManyAttempts
              else if book.value.code == code then Verified
              else InvalidCode
  {
    var w := Run(c, start, calls);
    RunAgreesAt(c, start, calls, key, at);
    AnswerFromBook(c, w.(now := at), key, code, Book(c, start, calls, key));
  }

  // ---------- Every issue, from the history ----------

  /** The wait in whole seconds, the last one begun counted in full. */
  predicate WaitsFor(left: int, seconds: int) {
    1000 * (seconds - 1) < left <= 1000 * seconds
  }

  /** A code in the book that is not used up and still cooling down. */
  predicate Cooling(c: Config, book: Option<Entry>, at: int) {
    book.Some? && !book.value.spent && at - book.value.at < 1000 * c.cooldown
  }

  lemma CoolingFromBook(c: Config, w: World, key: Key, book: Option<Entry>)
    requires Invariant(c, w) && Agrees(c, w.table.rows, w.now, key, book) && c.cooldown <= Retention(c)
    ensures CooldownLeft(c, w.table, key, w.now).Some? <==> Cooling(c, book, w.now)
    ensures Cooling(c, book, w.now) ==>
              WaitsFor(1000 * c.cooldown - (w.now - book.value.at), CooldownLeft(c, w.table, key, w.now).value)
  {
    NoneOfKey(w.table.rows, key);
    if Latest(w.table.rows, key).Some? {
      var k := LatestIndex(w.table.rows, key);
      if Cooling(c, book, w.now) {
        var i :| 0 <= i < |w.table.rows| && Open(w.table.rows[i], key);
        assert i == k;
      }
    }
  }

  /** The answer to an issue at `at`: locked, rate exceeded, cooling down, or issued for the lifetime. */
  predicate IssueIs(c: Config, fails: seq<FailEvent>, issues: seq<IssueEvent>, key: Key, book: Option<Entry>, at: int, outcome: Outcome) {
    if Locked(c, fails, key, at) then outcome == PhoneLocked
    else if IssuesAfter(issues, key, at - 1000 * c.issueWindow) >= c.maxIssues then outcome == IssueRateExceeded
    else if Cooling(c, book, at) then outcome.ResendCooldown? && WaitsFor(1000 * c.cooldown - (at - book.value.at), outcome.seconds)
    else outcome == Issued(at + 1000 * c.ttl)
  }

  lemma IssueFromBook(c: Config, w: World, key: Key, generated: string, book: Option<Entry>)
    requires Invariant(c, w) && Agrees(c, w.table.rows, w.now, key, book) && c.cooldown <= Retention(c)
    ensures IssueIs(c, w.fails, w.issues, key, book, w.now, IssueStep(c, w.table, key, generated, w.now).1)
  {
    LockFromHistory(c, w, key);
    assert CountSince(w.table.rows, key, w.now - 1000 * c.issueWindow) == IssuesAfter(w.issues, key, w.now - 1000 * c.issueWindow);
    CoolingFromBook(c, w, key, book);
  }

  /** What an issue answers after any run, told from the history. */
  lemma IssueAnswers(c: Config, start: int, calls: seq<Call>, key: Key, generated: string, at: int)
    requires Chronological(start, calls) && Run(c, start, calls).now <= at && c.cooldown <= Retention(c)
    ensures var w := Run(c, start, calls);
            IssueIs(c, w.fails, w.issues, key, Book(c, start, calls, key), at, IssueStep(c, w.table, key, generated, at).1)
  {
    var w := Run(c, start, calls);
    RunAgreesAt(c, start, calls, key, at);
    IssueFromBook(c, w.(now := at), key, generated, Book(c, start, calls, key));
  }

  // ---------- Every success ----------

  /** Whatever is kept and for how long: a success presents the code last sent, within its lifetime. */
  lemma VerifiedIsSent(c: Config, w: World, key: Key, code: string, book: Option<Entry>)
    requires Invariant(c, w) && Agrees(c, w.table.rows, w.now, key, book)
    requires VerifyStep(c, w.table, key, code, w.now).1 == Verified
    ensures book.Some? && book.value.code == code && book.value.at <= w.now < book.value.at + 1000 * c.ttl
  {
    var i := ActiveIndex(w.table.rows, key, w.now);
    assert Open(w.table.rows[i], key);
  }

  /** The call is the verification behind a success, and presents the code last sent before it. */
  ghost predicate WonBy(c: Config, start: int, calls: seq<Call>, call: Call, win: WinEvent) {
    call == Call(Verify(win.key, win.code), win.at) &&
    var book := Book(c, start, calls, win.key);
    book.Some? && book.value.code == win.code && book.value.at <= win.at < book.value.at + 1000 * c.ttl
  }

  lemma LastWin(c: Config, start: int, calls: seq<Call>, last: Call)
    requires Chronological(start, calls) && Run(c, start, calls).now <= last.at
    ensures var w := Run(c, start, calls);
            var v := Apply(c, w, last);
            v.wins == w.wins || (|v.wins| == |w.wins| + 1 && v.wins[..|w.wins|] == w.wins && WonBy(c, start, calls, last, v.wins[|w.wins|]))
  {
    var w := Run(c, start, calls);
    if last.op.Verify? && VerifyStep(c, w.table, last.op.key, last.op.code, last.at).1 == Verified {
      RunAgreesAt(c, start, calls, last.op.key, last.at);
      VerifiedIsSent(c, w.(now := last.at), last.op.key, last.op.code, Book(c, start, calls, last.op.key));
    }
  }

  /** Every success of a run was a verification that presented the code last sent to that phone, alive. */
  lemma {:induction false} EveryWinIsSent(c: Config, start: int, calls: seq<Call>, j: nat) returns (n: nat)
    requires Chronological(start, calls) && j < |Run(c, start, calls).wins|
    ensures n < |calls| && WonBy(c, start, calls[..n], calls[n], Run(c, start, calls).wins[j])
  {
    var m := |calls| - 1;
    RunKeepsInvariant(c, start, calls[..m]);
    LastWin(c, start, calls[..m], calls[m]);
    if j < |Run(c, start, calls[..m]).wins| {
      n := EveryWinIsSent(c, start, calls[..m], j);
      assert calls[..m][..n] == calls[..n];
    } else {
      n := m;
    }
  }
}
