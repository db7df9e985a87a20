/** Issuing, verifying and pruning one-time passwords against the table, one call at a time. */
module OtpService {
  import opened Options
  import opened OtpTable

  /** Settings, in seconds where they are durations; the schema makes every one positive. */
  datatype Config = Config(
    ttl: nat,
    cooldown: nat,
    maxAttempts: nat,
    lockWindow: nat,
    maxFailures: nat,
    issueWindow: nat,
    maxIssues: nat,
    fixedCode: Option<string>)

  predicate ValidConfig(c: Config) {
    && c.ttl > 0 && c.cooldown > 0 && c.maxAttempts > 0
    && c.lockWindow > 0 && c.maxFailures > 0
    && c.issueWindow > 0 && c.maxIssues > 0
  }

  function Ms(seconds: nat): nat {
    seconds * 1000
  }

  /** Rows younger than this are never pruned. */
  function Retention(c: Config): nat {
    if c.lockWindow >= c.issueWindow then c.lockWindow else c.issueWindow
  }

  datatype Outcome =
    | PhoneLocked
    | IssueRateExceeded
    | ResendCooldown(seconds: int)
    | Issued(expiresAt: int)
    | NoActiveCode
    | TooManyAttempts
    | InvalidCode
    | Verified

  // ---------- Specification ----------

  predicate IsLocked(c: Config, t: Table, key: Key, now: int) {
    SumSince(t.rows, key, now - Ms(c.lockWindow)) >= c.maxFailures
  }

  predicate RateExceeded(c: Config, t: Table, key: Key, now: int) {
    CountSince(t.rows, key, now - Ms(c.issueWindow)) >= c.maxIssues
  }

  /** Seconds to wait before a resend, rounded up; None when a resend is allowed. */
  function CooldownLeft(c: Config, t: Table, key: Key, now: int): Option<int> {
    match Latest(t.rows, key)
    case None => None
    case Some(r) =>
      var left := Ms(c.cooldown) - (now - r.createdAt);
      if r.consumedAt.None? && left > 0 then Some((left + 999) / 1000) else None
  }

  /** The row a successful issue stores: the fixed code, when set, replaces the generated one. */
  function NewRow(c: Config, id: nat, key: Key, generated: string, now: int): Row {
    var code := if c.fixedCode.Some? then c.fixedCode.value else generated;
    Row(id, key, Digest(code), now + Ms(c.ttl), 0, None, now)
  }

  function IssueStep(c: Config, t: Table, key: Key, generated: string, now: int): (Table, Outcome) {
    if IsLocked(c, t, key, now) then (t, PhoneLocked)
    else if RateExceeded(c, t, key, now) then (t, IssueRateExceeded)
    else
      match CooldownLeft(c, t, key, now)
      case Some(seconds) => (t, ResendCooldown(seconds))
      case None =>
        var rows := InvalidateActive(t.rows, key, now) + [NewRow(c, t.nextId, key, generated, now)];
        (Table(rows, t.nextId + 1), Issued(now + Ms(c.ttl)))
  }

  function VerifyStep(c: Config, t: Table, key: Key, code: string, now: int): (Table, Outcome) {
    VerifyAgainst(c, t, IsLocked(c, t, key, now), Active(t.rows, key, now), code, now)
  }

  /** The decision, given the lock check and the active row. */
  function VerifyAgainst(c: Config, t: Table, locked: bool, active: Option<Row>, code: string, now: int): (Table, Outcome) {
    if locked then (t, PhoneLocked)
    else
      match active
      case None => (t, NoActiveCode)
      case Some(r) =>
        if r.attempts >= c.maxAttempts then (Table(MarkConsumed(t.rows, r.id, now), t.nextId), TooManyAttempts)
        else if Digest(code) != r.codeHash then (Table(IncrementAttempts(t.rows, r.id), t.nextId), InvalidCode)
        else (Table(MarkConsumed(t.rows, r.id, now), t.nextId), Verified)
  }

  function PruneStep(c: Config, t: Table, now: int): Table {
    Table(DeleteBefore(t.rows, now - Ms(Retention(c))), t.nextId)
  }

  // ---------- The repository and the service ----------

  ghost predicate RisingIds(rows: seq<Row>) {
    forall i, j :: 0 <= i < j < |rows| ==> rows[i].id < rows[j].id
  }

  class OtpRepository {
    var rows: seq<Row>
    var nextId: nat

    constructor ()
      ensures State() == EMPTY
    {
      rows, nextId := [], 1;
    }

    function State(): Table
      reads this
    {
      Table(rows, nextId)
    }

    /** The newest of the unconsumed and unexpired rows, if there are any. */
    method FindActiveByPhoneAndPurpose(key: Key, now: int) returns (r: Option<Row>)
      ensures r == Active(rows, key, now)
      ensures r.None? <==> forall i :: 0 <= i < |rows| ==> !IsActive(rows[i], key, now)
      ensures r.Some? ==> exists i :: 0 <= i < |rows| && rows[i] == r.value && IsActive(rows[i], key, now)
                                      && forall j :: i < j < |rows| ==> !IsActive(rows[j], key, now)
    {
      r := Active(rows, key, now);
      NoneActive(rows, key, now);
      if r.Some? {
        ghost var _ := ActiveIndex(rows, key, now);
      }
    }

    /** The row of the key with the greatest id, if there is any. */
    method FindLatestByPhoneAndPurpose(key: Key) returns (r: Option<Row>)
      ensures r == Latest(rows, key)
      ensures r.None? <==> forall i :: 0 <= i < |rows| ==> rows[i].key != key
      ensures r.Some? && RisingIds(rows) ==> forall i :: 0 <= i < |rows| && rows[i].key == key ==> rows[i].id <= r.value.id
    {
      r := Latest(rows, key);
      NoneOfKey(rows, key);
      if r.Some? {
        ghost var i := LatestIndex(rows, key);
        assert RisingIds(rows) ==> forall j :: 0 <= j < i ==> rows[j].id < rows[i].id;
      }
    }

    method Save(row: Row)
      requires row.id == nextId
      modifies this
      ensures State() == Table(old(rows) + [row], old(nextId) + 1)
    {
      rows := rows + [row];
      nextId := nextId + 1;
    }

    method Increment(id: nat)
      modifies `rows
      ensures rows == IncrementAttempts(old(rows), id)
    {
      rows := IncrementAttempts(rows, id);
    }

    method Consume(id: nat, at: int)
      modifies `rows
      ensures rows == MarkConsumed(old(rows), id, at)
    {
      rows := MarkConsumed(rows, id, at);
    }

    method Invalidate(key: Key, at: int)
      modifies `rows
      ensures rows == InvalidateActive(old(rows), key, at)
    {
      rows := InvalidateActive(rows, key, at);
    }

    method DeleteCreatedBefore(cutoff: int) returns (affected: nat)
      modifies `rows
      ensures rows == DeleteBefore(old(rows), cutoff)
      ensures affected == |old(rows)| - |rows|
    {
      DeleteShrinks(rows, cutoff);
      var kept := DeleteBefore(rows, cutoff);
      affected := |rows| - |kept|;
      rows := kept;
    }
  }

  lemma {:induction false} DeleteShrinks(rows: seq<Row>, cutoff: int)
    ensures |DeleteBefore(rows, cutoff)| <= |rows|
  {
    if rows != [] {
      DeleteShrinks(rows[1..], cutoff);
    }
  }

  class Service {
    const repo: OtpRepository
    const config: Config

    constructor (repo: OtpRepository, config: Config)
      ensures this.repo == repo && this.config == config
    {
      this.repo := repo;
      this.config := config;
    }

    /** Throws are returned outcomes; the message dispatch that follows a save changes no row. */
    method Issue(key: Key, generated: string, now: int) returns (outcome: Outcome)
      modifies repo
      ensures (repo.State(), outcome) == IssueStep(config, old(repo.State()), key, generated, now)
      ensures outcome.Issued? ==>
                && |repo.rows| == |old(repo.rows)| + 1
                && repo.rows[|old(repo.rows)|].codeHash == Digest(if config.fixedCode.Some? then config.fixedCode.value else generated)
    {
      var locked := AssertPhoneNotLocked(key, now);
      if locked {
        return PhoneLocked;
      }
      var exceeded := AssertIssueRateNotExceeded(key, now);
      if exceeded {
        return IssueRateExceeded;
      }
      var latest := repo.FindLatestByPhoneAndPurpose(key);
      if latest.Some? && latest.value.consumedAt.None? {
        var age := now - latest.value.createdAt;
        if age < Ms(config.cooldown) {
          return ResendCooldown((Ms(config.cooldown) - age + 999) / 1000);
        }
      }
      repo.Invalidate(key, now);
      repo.Save(NewRow(config, repo.nextId, key, generated, now));
      return Issued(now + Ms(config.ttl));
    }

    method Verify(key: Key, code: string, now: int) returns (outcome: Outcome)
      modifies repo
      ensures (repo.State(), outcome) == VerifyStep(config, old(repo.State()), key, code, now)
    {
      var locked := AssertPhoneNotLocked(key, now);
      if locked {
        return PhoneLocked;
      }
      var otp := repo.FindActiveByPhoneAndPurpose(key, now);
      if otp.None? {
        return NoActiveCode;
      }
      if otp.value.attempts >= config.maxAttempts {
        repo.Consume(otp.value.id, now);
        return TooManyAttempts;
      }
      if Digest(code) != otp.value.codeHash {
        repo.Increment(otp.value.id);
        return InvalidCode;
      }
      repo.Consume(otp.value.id, now);
      return Verified;
    }

    method PruneStaleOtps(now: int)
      modifies repo
      ensures repo.State() == PruneStep(config, old(repo.State()), now)
    {
      var _ := repo.DeleteCreatedBefore(now - Ms(Retention(config)));
    }

    method AssertPhoneNotLocked(key: Key, now: int) returns (locked: bool)
      ensures locked == IsLocked(config, repo.State(), key, now)
    {
      var failed := SumSince(repo.rows, key, now - Ms(config.lockWindow));
      locked := failed >= config.maxFailures;
    }

    method AssertIssueRateNotExceeded(key: Key, now: int) returns (exceeded: bool)
      ensures exceeded == RateExceeded(config, repo.State(), key, now)
    {
      var count := CountSince(repo.rows, key, now - Ms(config.issueWindow));
      exceeded := count >= config.maxIssues;
    }
  }
}
