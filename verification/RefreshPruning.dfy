/**
 * Nightly pruning of refresh tokens and what callers see of it, over whole runs of atomic
 * calls: exactly the runs in which a pruning loses an alarm of use to a live token can tell.
 */
module RefreshPruning {
  import opened Options
  import opened RefreshTokens
  import P = RefreshProtocol

  datatype Op =
    | Issue(owner: Owner, minted: string)
    | Rotate(token: string, minted: string)
    | Logout(token: string)
    | RevokeAllFor(owner: Owner)
    | Prune

  datatype Call = Call(op: Op, at: int)

  datatype Reply = Granted(expiresAt: int) | Refused | Presented(outcome: Outcome)

  // ---------- Runs ----------

  ghost function Apply(ttl: nat, t: Table, call: Call): Table {
    match call.op
    case Issue(owner, minted) => Insert(t, NewRow(Digest(minted), owner, Expiry(ttl, call.at)))
    case Rotate(token, minted) => RotateStep(ttl, t, token, minted, call.at).0
    case Logout(token) => LogoutStep(t, token, call.at)
    case RevokeAllFor(owner) => Table(RevokeAll(t.rows, owner, call.at), t.nextId)
    case Prune => Table(DeleteExpired(t.rows, call.at), t.nextId)
  }

  /** What the caller of an issue or a rotation is told; the other calls return nothing. */
  ghost function Returned(ttl: nat, t: Table, call: Call): seq<Reply> {
    match call.op
    case Issue(_, minted) => [if Taken(t.rows, Digest(minted)) then Refused else Granted(Expiry(ttl, call.at))]
    case Rotate(token, minted) => [Presented(RotateStep(ttl, t, token, minted, call.at).1)]
    case _ => []
  }

  ghost function Run(ttl: nat, calls: seq<Call>): Table {
    if calls == [] then EMPTY else Apply(ttl, Run(ttl, calls[..|calls| - 1]), calls[|calls| - 1])
  }

  ghost function Replies(ttl: nat, calls: seq<Call>): seq<Reply> {
    if calls == [] then []
    else
      var n := |calls| - 1;
      Replies(ttl, calls[..n]) + Returned(ttl, Run(ttl, calls[..n]), calls[n])
  }

  /** The same calls with no pruning between them. */
  function WithoutPrunes(calls: seq<Call>): seq<Call> {
    if calls == [] then []
    else
      var n := |calls| - 1;
      WithoutPrunes(calls[..n]) + if calls[n].op.Prune? then [] else [calls[n]]
  }

  lemma RunExtends(ttl: nat, calls: seq<Call>, last: Call)
    ensures Run(ttl, calls + [last]) == Apply(ttl, Run(ttl, calls), last)
    ensures Replies(ttl, calls + [last]) == Replies(ttl, calls) + Returned(ttl, Run(ttl, calls), last)
    ensures WithoutPrunes(calls + [last]) == WithoutPrunes(calls) + if last.op.Prune? then [] else [last]
  {
    assert (calls + [last])[..|calls|] == calls;
  }

  /** When the last pruning was, or the start of the run. */
  function LastPrune(start: int, calls: seq<Call>): int {
    if calls == [] then start
    else if calls[|calls| - 1].op.Prune? then calls[|calls| - 1].at
    else LastPrune(start, calls[..|calls| - 1])
  }

  function Now(start: int, calls: seq<Call>): int {
    if calls == [] then start else calls[|calls| - 1].at
  }

  /** The token a call generates, the empty string when it generates none. */
  function Mint(call: Call): string {
    if call.op.Issue? || call.op.Rotate? then call.op.minted else ""
  }

  /** Calls in the order of the clock, and no token generated twice. */
  ghost predicate Admissible(start: int, calls: seq<Call>) {
    && (forall i :: 0 <= i < |calls| ==> start <= calls[i].at)
    && (forall i, j :: 0 <= i < j < |calls| ==> calls[i].at <= calls[j].at)
    && (forall i :: 0 <= i < |calls| && (calls[i].op.Issue? || calls[i].op.Rotate?) ==> Mint(calls[i]) != "")
    && (forall i, j :: 0 <= i < j < |calls| && Mint(calls[i]) != "" ==> Mint(calls[i]) != Mint(calls[j]))
  }

  lemma AdmissiblePrefix(start: int, calls: seq<Call>, n: nat)
    requires Admissible(start, calls) && n <= |calls|
    ensures Admissible(start, calls[..n])
    ensures n < |calls| ==> Now(start, calls[..n]) <= calls[n].at
  {
  }

  // ---------- The two tables ----------

  /** Expired and not replaced: presented, it is rejected, revoked or not. */
  predicate Stale(f: Row, k: Row, now: int) {
    f.expiresAt <= now && f.replacedBy.None? && k == f.(revokedAt := k.revokedAt)
  }

  /** A replaced row is revoked, and generated tokens are not empty. */
  ghost predicate Linked(t: Table) {
    Sound(t) && forall id :: id in t.rows ==> (t.rows[id].replacedBy.Some? ==> t.rows[id].revokedAt.Some?) && t.rows[id].hash.token != ""
  }

  /** `kept` is `full` less the rows expired at the last pruning, up to the revocation of expired rows. */
  ghost predicate Alike(full: Table, kept: Table, pruned: int, now: int) {
    && Linked(full) && full.nextId == kept.nextId && pruned <= now
    && (forall id :: id in kept.rows ==> id in full.rows && full.rows[id].expiresAt >= pruned)
    && (forall id :: id in full.rows && full.rows[id].expiresAt >= pruned ==> id in kept.rows)
    && (forall id :: id in kept.rows ==> kept.rows[id] == full.rows[id] || Stale(full.rows[id], kept.rows[id], now))
  }

  lemma AlikeLater(full: Table, kept: Table, pruned: int, now: int, at: int)
    requires Alike(full, kept, pruned, now) && now <= at
    ensures Alike(full, kept, pruned, at)
  {
  }

  lemma FindAlike(full: Table, kept: Table, pruned: int, now: int, hash: Digest)
    requires Alike(full, kept, pruned, now)
    ensures Find(kept.rows, hash) ==
            match Find(full.rows, hash) case None => None case Some(id) => if full.rows[id].expiresAt >= pruned then Some(id) else None
  {
    var found := Find(full.rows, hash);
    if found.Some? && full.rows[found.value].expiresAt >= pruned {
      assert found.value in kept.rows;
    }
  }

  lemma TakenAlike(full: Table, kept: Table, pruned: int, now: int, hash: Digest)
    requires Alike(full, kept, pruned, now) && !Taken(full.rows, hash)
    ensures !Taken(kept.rows, hash)
  {
  }

  // ---------- One call on both ----------

  lemma IssueAlike(ttl: nat, full: Table, kept: Table, pruned: int, now: int, owner: Owner, minted: string)
    requires Alike(full, kept, pruned, now) && !Taken(full.rows, Digest(minted)) && minted != ""
    ensures var row := NewRow(Digest(minted), owner, Expiry(ttl, now));
            Alike(Insert(full, row), Insert(kept, row), pruned, now)
  {
    TakenAlike(full, kept, pruned, now, Digest(minted));
  }

  /** Row by row the same, except that some may have been revoked. */
  ghost predicate Revokes(out: map<nat, Row>, rows: map<nat, Row>) {
    && out.Keys == rows.Keys
    && forall id :: id in rows ==> out[id] == rows[id] || (out[id].revokedAt.Some? && out[id] == rows[id].(revokedAt := out[id].revokedAt))
  }

  lemma RevokesKeepsLinked(t: Table, out: map<nat, Row>)
    requires Linked(t) && Revokes(out, t.rows)
    ensures Linked(Table(out, t.nextId))
  {
  }

  lemma RevokesAlike(full: Table, kept: Table, pruned: int, now: int, out: map<nat, Row>, rest: map<nat, Row>)
    requires Alike(full, kept, pruned, now) && Revokes(out, full.rows) && Revokes(rest, kept.rows)
    requires forall id :: id in rest ==> rest[id] == out[id] || Stale(out[id], rest[id], now)
    ensures Alike(Table(out, full.nextId), Table(rest, kept.nextId), pruned, now)
  {
    RevokesKeepsLinked(full, out);
  }

  lemma RevokeAllAlike(full: Table, kept: Table, pruned: int, now: int, owner: Owner)
    requires Alike(full, kept, pruned, now)
    ensures Alike(Table(RevokeAll(full.rows, owner, now), full.nextId), Table(RevokeAll(kept.rows, owner, now), kept.nextId), pruned, now)
  {
    RevokesAlike(full, kept, pruned, now, RevokeAll(full.rows, owner, now), RevokeAll(kept.rows, owner, now));
  }

  lemma RevokeOneAlike(full: Table, kept: Table, pruned: int, now: int, id: nat)
    requires Alike(full, kept, pruned, now) && id in full.rows
    ensures Alike(Table(RevokeOne(full.rows, id, now), full.nextId), Table(RevokeOne(kept.rows, id, now), kept.nextId), pruned, now)
  {
    RevokesAlike(full, kept, pruned, now, RevokeOne(full.rows, id, now), RevokeOne(kept.rows, id, now));
  }

  /** Of a stale pair, either may be revoked alone. */
  lemma StaleAlike(full: Table, kept: Table, pruned: int, now: int, id: nat)
    requires Alike(full, kept, pruned, now) && id in kept.rows && Stale(full.rows[id], kept.rows[id], now)
    ensures Alike(Table(RevokeOne(full.rows, id, now), full.nextId), kept, pruned, now)
    ensures Alike(full, Table(RevokeOne(kept.rows, id, now), kept.nextId), pruned, now)
  {
    StaleFullAlike(full, kept, pruned, now, id);
    StaleKeptAlike(full, kept, pruned, now, id);
  }

  lemma StaleFullAlike(full: Table, kept: Table, pruned: int, now: int, id: nat)
    requires Alike(full, kept, pruned, now) && id in kept.rows && Stale(full.rows[id], kept.rows[id], now)
    ensures Alike(Table(RevokeOne(full.rows, id, now), full.nextId), kept, pruned, now)
  {
    RevokesAlike(full, kept, pruned, now, RevokeOne(full.rows, id, now), kept.rows);
  }

  lemma StaleKeptAlike(full: Table, kept: Table, pruned: int, now: int, id: nat)
    requires Alike(full, kept, pruned, now) && id in kept.rows && Stale(full.rows[id], kept.rows[id], now)
    ensures Alike(full, Table(RevokeOne(kept.rows, id, now), kept.nextId), pruned, now)
  {
    RevokesAlike(full, kept, pruned, now, full.rows, RevokeOne(kept.rows, id, now));
  }

  lemma LogoutAlike(full: Table, kept: Table, pruned: int, now: int, token: string)
    requires Alike(full, kept, pruned, now)
    ensures Alike(LogoutStep(full, token, now), LogoutStep(kept, token, now), pruned, now)
  {
    FindAlike(full, kept, pruned, now, Digest(token));
    var found := Find(full.rows, Digest(token));
    if found.Some? {
      var id := found.value;
      RevokeOneAlike(full, kept, pruned, now, id);
      if id in kept.rows && kept.rows[id] != full.rows[id] {
        StaleAlike(full, kept, pruned, now, id);
      }
    }
  }

  lemma PruneAlike(full: Table, kept: Table, pruned: int, now: int)
    requires Alike(full, kept, pruned, now)
    ensures Alike(full, Table(DeleteExpired(kept.rows, now), kept.nextId), now, now)
  {
  }

  /** A token of the owner that can still be rotated. */
  ghost predicate HasLive(t: Table, owner: Owner, now: int) {
    exists k :: k in t.rows && t.rows[k].owner == owner && t.rows[k].revokedAt.None? && t.rows[k].expiresAt > now
  }

  /** A presentation that would have revoked a live token, by a row the pruning removed. */
  ghost predicate AlarmLost(t: Table, pruned: int, token: string, now: int) {
    token != "" &&
    match Find(t.rows, Digest(token))
    case None => false
    case Some(id) => t.rows[id].expiresAt < pruned && Judge(t.rows[id], now) == Reuse && HasLive(t, t.rows[id].owner, now)
  }

  lemma ExchangeAlike(full: Table, kept: Table, pruned: int, now: int, id: nat, row: Row)
    requires Alike(full, kept, pruned, now) && !Taken(full.rows, row.hash) && row.hash.token != "" && row.replacedBy.None? && row.expiresAt >= pruned
    requires id in kept.rows && kept.rows[id] == full.rows[id]
    ensures Exchange(full, id, row, now).1 == Exchange(kept, id, row, now).1
    ensures Alike(Exchange(full, id, row, now).0, Exchange(kept, id, row, now).0, pruned, now)
  {
    TakenAlike(full, kept, pruned, now, row.hash);
    if full.rows[id].revokedAt.None? {
      ExchangeKeepsLinked(full, id, row, now);
      ExchangedAlike(full, kept, pruned, now, id, row);
    }
  }

  function After(t: Table, id: nat, row: Row, now: int): Table
    requires id in t.rows
  {
    Table(t.rows[t.nextId := row][id := Replaced(t.rows[id], t.nextId, now)], t.nextId + 1)
  }

  lemma ExchangeKeepsLinked(t: Table, id: nat, row: Row, now: int)
    requires Linked(t) && id in t.rows && !Taken(t.rows, row.hash) && row.hash.token != "" && row.replacedBy.None?
    ensures Linked(After(t, id, row, now))
  {
  }

  lemma ExchangedAlike(full: Table, kept: Table, pruned: int, now: int, id: nat, row: Row)
    requires Alike(full, kept, pruned, now) && id in kept.rows && kept.rows[id] == full.rows[id] && row.expiresAt >= pruned
    requires Linked(After(full, id, row, now))
    ensures Alike(After(full, id, row, now), After(kept, id, row, now), pruned, now)
  {
  }

  /** The row presented is in both tables. */
  lemma RotateBoth(ttl: nat, full: Table, kept: Table, pruned: int, now: int, id: nat, minted: string)
    requires Alike(full, kept, pruned, now) && !Taken(full.rows, Digest(minted)) && minted != "" && id in kept.rows
    ensures RotateRow(ttl, full, id, full.rows[id], minted, now).1 == RotateRow(ttl, kept, id, kept.rows[id], minted, now).1
    ensures Alike(RotateRow(ttl, full, id, full.rows[id], minted, now).0, RotateRow(ttl, kept, id, kept.rows[id], minted, now).0, pruned, now)
  {
    if kept.rows[id] == full.rows[id] {
      var r := full.rows[id];
      match Judge(r, now) {
        case Reuse => RevokeAllAlike(full, kept, pruned, now, r.owner);
        case Reject =>
        case Accept => ExchangeAlike(full, kept, pruned, now, id, NewRow(Digest(minted), r.owner, Expiry(ttl, now)));
      }
    }
  }

  /** The row presented was pruned: rejected either way, and the tables part exactly when a live token was to be revoked. */
  lemma RotateGone(ttl: nat, full: Table, kept: Table, pruned: int, now: int, id: nat, minted: string)
    requires Alike(full, kept, pruned, now) && id in full.rows && full.rows[id].expiresAt < pruned
    ensures RotateRow(ttl, full, id, full.rows[id], minted, now).1 == Invalid
    ensures !(Judge(full.rows[id], now) == Reuse && HasLive(full, full.rows[id].owner, now)) ==>
              Alike(RotateRow(ttl, full, id, full.rows[id], minted, now).0, kept, pruned, now)
  {
    var r := full.rows[id];
    if Judge(r, now) == Reuse && !HasLive(full, r.owner, now) {
      RevokeExpired(full, kept, pruned, now, r.owner);
    }
  }

  lemma RevokeExpired(full: Table, kept: Table, pruned: int, now: int, owner: Owner)
    requires Alike(full, kept, pruned, now) && !HasLive(full, owner, now)
    ensures Alike(Table(RevokeAll(full.rows, owner, now), full.nextId), kept, pruned, now)
  {
    var out := RevokeAll(full.rows, owner, now);
    forall k | k in kept.rows
      ensures kept.rows[k] == out[k] || Stale(out[k], kept.rows[k], now)
    {
      if out[k] != full.rows[k] {
        assert full.rows[k].owner == owner && full.rows[k].revokedAt.None?;
        assert full.rows[k].expiresAt <= now;
      }
    }
    RevokesAlike(full, kept, pruned, now, out, kept.rows);
  }

  lemma RotateAlike(ttl: nat, full: Table, kept: Table, pruned: int, now: int, token: string, minted: string)
    requires Alike(full, kept, pruned, now) && !Taken(full.rows, Digest(minted)) && minted != ""
    ensures RotateStep(ttl, full, token, minted, now).1 == RotateStep(ttl, kept, token, minted, now).1
    ensures !AlarmLost(full, pruned, token, now) ==>
              Alike(RotateStep(ttl, full, token, minted, now).0, RotateStep(ttl, kept, token, minted, now).0, pruned, now)
  {
    FindAlike(full, kept, pruned, now, Digest(token));
    var found := Find(full.rows, Digest(token));
    if token != "" && found.Some? {
      if full.rows[found.value].expiresAt >= pruned {
        RotateBoth(ttl, full, kept, pruned, now, found.value, minted);
      } else {
        RotateGone(ttl, full, kept, pruned, now, found.value, minted);
      }
    }
  }

  // ---------- Generated tokens are new ----------

  /** Every row holds a token that some earlier call generated. */
  ghost predicate HashesMinted(t: Table, calls: seq<Call>) {
    forall id :: id in t.rows ==> exists i :: 0 <= i < |calls| && Mint(calls[i]) == t.rows[id].hash.token
  }

  lemma HashesFrom(ttl: nat, t: Table, call: Call)
    ensures forall id :: id in Apply(ttl, t, call).rows ==>
              (id in t.rows && Apply(ttl, t, call).rows[id].hash == t.rows[id].hash) || Apply(ttl, t, call).rows[id].hash.token == Mint(call)
  {
  }

  lemma {:induction false} RunMints(ttl: nat, calls: seq<Call>)
    ensures HashesMinted(Run(ttl, calls), calls)
  {
    if calls != [] {
      var n := |calls| - 1;
      var t := Run(ttl, calls[..n]);
      RunMints(ttl, calls[..n]);
      HashesFrom(ttl, t, calls[n]);
      forall id | id in Run(ttl, calls).rows
        ensures exists i :: 0 <= i < |calls| && Mint(calls[i]) == Run(ttl, calls).rows[id].hash.token
      {
        if id in t.rows && Run(ttl, calls).rows[id].hash == t.rows[id].hash {
          var i :| 0 <= i < n && Mint(calls[..n][i]) == t.rows[id].hash.token;
          assert Mint(calls[i]) == Run(ttl, calls).rows[id].hash.token;
        } else {
          assert Mint(calls[n]) == Run(ttl, calls).rows[id].hash.token;
        }
      }
    }
  }

  lemma {:induction false} WithoutPrunesMints(calls: seq<Call>)
    ensures forall call :: call in WithoutPrunes(calls) ==> call in calls
  {
    if calls != [] {
      WithoutPrunesMints(calls[..|calls| - 1]);
    }
  }

  lemma MintElsewhere(start: int, calls: seq<Call>, last: Call)
    requires Admissible(start, calls + [last]) && Mint(last) != ""
    ensures forall call :: call in WithoutPrunes(calls) ==> Mint(call) != Mint(last)
  {
    var all := calls + [last];
    WithoutPrunesMints(calls);
    forall call | call in calls
      ensures Mint(call) != Mint(last)
    {
      var j :| 0 <= j < |calls| && calls[j] == call;
      assert all[j] == call && all[|calls|] == last;
    }
  }

  lemma MintIsNew(ttl: nat, start: int, calls: seq<Call>, last: Call)
    requires Admissible(start, calls + [last]) && Mint(last) != ""
    ensures !Taken(Run(ttl, WithoutPrunes(calls)).rows, Digest(Mint(last)))
  {
    RunMints(ttl, WithoutPrunes(calls));
    MintElsewhere(start, calls, last);
    Unminted(Run(ttl, WithoutPrunes(calls)), WithoutPrunes(calls), Mint(last));
  }

  lemma Unminted(t: Table, calls: seq<Call>, token: string)
    requires HashesMinted(t, calls) && forall call :: call in calls ==> Mint(call) != token
    ensures !Taken(t.rows, Digest(token))
  {
    forall id | id in t.rows
      ensures t.rows[id].hash != Digest(token)
    {
      var i :| 0 <= i < |calls| && Mint(calls[i]) == t.rows[id].hash.token;
      assert calls[i] in calls;
    }
  }

  // ---------- Whole runs ----------

  /** Presentation `n` of the run loses an alarm. */
  ghost predicate LostAt(ttl: nat, start: int, calls: seq<Call>, n: nat) {
    n < |calls| && calls[n].op.Rotate?
    && AlarmLost(Run(ttl, WithoutPrunes(calls[..n])), LastPrune(start, calls[..n]), calls[n].op.token, calls[n].at)
  }

  ghost predicate LosesAlarm(ttl: nat, start: int, calls: seq<Call>) {
    exists n :: LostAt(ttl, start, calls, n)
  }

  /** The runs with and without prunings go alike, and told their callers the same. */
  ghost predicate RunAlike(ttl: nat, start: int, calls: seq<Call>) {
    && Alike(Run(ttl, WithoutPrunes(calls)), Run(ttl, calls), LastPrune(start, calls), Now(start, calls))
    && Replies(ttl, calls) == Replies(ttl, WithoutPrunes(calls))
  }

  lemma CallAlike(ttl: nat, full: Table, kept: Table, pruned: int, now: int, call: Call)
    requires Alike(full, kept, pruned, now) && now <= call.at && !call.op.Prune?
    requires call.op.Issue? || call.op.Rotate? ==> Mint(call) != "" && !Taken(full.rows, Digest(Mint(call)))
    ensures Returned(ttl, full, call) == Returned(ttl, kept, call)
    ensures !(call.op.Rotate? && AlarmLost(full, pruned, call.op.token, call.at)) ==>
              Alike(Apply(ttl, full, call), Apply(ttl, kept, call), pruned, call.at)
  {
    AlikeLater(full, kept, pruned, now, call.at);
    match call.op {
      case Issue(owner, minted) =>
        TakenAlike(full, kept, pruned, call.at, Digest(minted));
        IssueAlike(ttl, full, kept, pruned, call.at, owner, minted);
      case Rotate(token, minted) => RotateAlike(ttl, full, kept, pruned, call.at, token, minted);
      case Logout(token) => LogoutAlike(full, kept, pruned, call.at, token);
      case RevokeAllFor(owner) => RevokeAllAlike(full, kept, pruned, call.at, owner);
      case Prune =>
    }
  }

  lemma MintOrNone(ttl: nat, start: int, calls: seq<Call>, call: Call)
    requires Admissible(start, calls + [call]) && (call.op.Issue? || call.op.Rotate?)
    ensures Mint(call) != "" && !Taken(Run(ttl, WithoutPrunes(calls)).rows, Digest(Mint(call)))
  {
    assert (calls + [call])[|calls|] == call;
    MintIsNew(ttl, start, calls, call);
  }

  lemma ExtendByPrune(ttl: nat, start: int, calls: seq<Call>, call: Call)
    requires RunAlike(ttl, start, calls) && call.op.Prune? && Now(start, calls) <= call.at
    ensures RunAlike(ttl, start, calls + [call])
  {
    var full, kept := Run(ttl, WithoutPrunes(calls)), Run(ttl, calls);
    RunExtends(ttl, calls, call);
    AlikeLater(full, kept, LastPrune(start, calls), Now(start, calls), call.at);
    PruneAlike(full, kept, LastPrune(start, calls), call.at);
    PruneStays(start, calls, call);
    assert WithoutPrunes(calls + [call]) == WithoutPrunes(calls);
  }

  lemma ExtendByOther(ttl: nat, start: int, calls: seq<Call>, call: Call)
    requires Alike(Run(ttl, WithoutPrunes(calls)), Run(ttl, calls), LastPrune(start, calls), Now(start, calls))
    requires Replies(ttl, calls) == Replies(ttl, WithoutPrunes(calls))
    requires !call.op.Prune? && Now(start, calls) <= call.at
    requires call.op.Issue? || call.op.Rotate? ==> Mint(call) != "" && !Taken(Run(ttl, WithoutPrunes(calls)).rows, Digest(Mint(call)))
    ensures Replies(ttl, calls + [call]) == Replies(ttl, WithoutPrunes(calls + [call]))
    ensures !(call.op.Rotate? && AlarmLost(Run(ttl, WithoutPrunes(calls)), LastPrune(start, calls), call.op.token, call.at)) ==>
              RunAlike(ttl, start, calls + [call])
  {
    RunExtends(ttl, calls, call);
    RunExtends(ttl, WithoutPrunes(calls), call);
    PruneStays(start, calls, call);
    CallAlike(ttl, Run(ttl, WithoutPrunes(calls)), Run(ttl, calls), LastPrune(start, calls), Now(start, calls), call);
  }

  lemma PruneStays(start: int, calls: seq<Call>, call: Call)
    ensures LastPrune(start, calls + [call]) == if call.op.Prune? then call.at else LastPrune(start, calls)
    ensures Now(start, calls + [call]) == call.at
  {
    assert (calls + [call])[..|calls|] == calls;
  }

  /** One more call; its reply agrees even when it loses an alarm. */
  lemma ExtendAlike(ttl: nat, start: int, calls: seq<Call>, call: Call)
    requires Admissible(start, calls + [call]) && RunAlike(ttl, start, calls)
    ensures Replies(ttl, calls + [call]) == Replies(ttl, WithoutPrunes(calls + [call]))
    ensures !(call.op.Rotate? && AlarmLost(Run(ttl, WithoutPrunes(calls)), LastPrune(start, calls), call.op.token, call.at)) ==>
              RunAlike(ttl, start, calls + [call])
  {
    TimeRises(start, calls, call);
    if call.op.Prune? {
      ExtendByPrune(ttl, start, calls, call);
    } else {
      if call.op.Issue? || call.op.Rotate? {
        MintOrNone(ttl, start, calls, call);
      }
      ExtendByOther(ttl, start, calls, call);
    }
  }

  lemma TimeRises(start: int, calls: seq<Call>, call: Call)
    requires Admissible(start, calls + [call])
    ensures Now(start, calls) <= call.at
  {
    AdmissiblePrefix(start, calls + [call], |calls|);
    assert (calls + [call])[..|calls|] == calls;
  }

  lemma StartAlike(ttl: nat, start: int)
    ensures RunAlike(ttl, start, [])
  {
  }

  lemma {:induction false} QuietRunAlike(ttl: nat, start: int, calls: seq<Call>, n: nat)
    requires Admissible(start, calls) && n <= |calls| && forall m :: 0 <= m < n ==> !LostAt(ttl, start, calls, m)
    ensures RunAlike(ttl, start, calls[..n])
  {
    if n == 0 {
      StartAlike(ttl, start);
    } else {
      QuietRunAlike(ttl, start, calls, n - 1);
      AdmissiblePrefix(start, calls, n);
      assert calls[..n] == calls[..n - 1] + [calls[n - 1]];
      assert !LostAt(ttl, start, calls, n - 1);
      ExtendAlike(ttl, start, calls[..n - 1], calls[n - 1]);
    }
  }

  /** As long as no presentation loses an alarm, callers cannot tell whether tokens were pruned. */
  lemma PruningInvisible(ttl: nat, start: int, calls: seq<Call>)
    requires Admissible(start, calls) && !LosesAlarm(ttl, start, calls)
    ensures Replies(ttl, calls) == Replies(ttl, WithoutPrunes(calls))
  {
    QuietRunAlike(ttl, start, calls, |calls|);
    assert calls[..|calls|] == calls;
  }

  // ---------- A lost alarm shows ----------

  /** A token longer than every one generated. */
  function Longer(calls: seq<Call>): string {
    if calls == [] then "x" else Longer(calls[..|calls| - 1]) + Mint(calls[|calls| - 1]) + "x"
  }

  lemma {:induction false} LongerIsNew(calls: seq<Call>)
    ensures |Longer(calls)| >= 1 && forall call :: call in calls ==> |Mint(call)| < |Longer(calls)|
  {
    if calls != [] {
      var n := |calls| - 1;
      LongerIsNew(calls[..n]);
      forall call | call in calls
        ensures |Mint(call)| < |Longer(calls)|
      {
        assert call in calls[..n] || call == calls[n];
      }
    }
  }

  lemma LonelyProbe(start: int, calls: seq<Call>, token: string) returns (probe: Call)
    requires Admissible(start, calls)
    ensures probe == Call(Rotate(token, Longer(calls)), Now(start, calls)) && Admissible(start, calls + [probe])
  {
    probe := Call(Rotate(token, Longer(calls)), Now(start, calls));
    LongerIsNew(calls);
    var all := calls + [probe];
    forall i | 0 <= i < |calls|
      ensures all[i].at <= probe.at && Mint(all[i]) != Mint(probe)
    {
      assert calls[i] in calls;
    }
  }

  /** The live token is revoked in the one table and still rotates in the other. */
  lemma TablesPart(ttl: nat, full: Table, kept: Table, pruned: int, now: int, token: string, minted: string, k: nat, probe: string)
    requires Alike(full, kept, pruned, now) && AlarmLost(full, pruned, token, now)
    requires var id := Find(full.rows, Digest(token)).value;
             k in full.rows && full.rows[k].owner == full.rows[id].owner && full.rows[k].revokedAt.None? && full.rows[k].expiresAt > now
    requires !Taken(kept.rows, Digest(probe))
    ensures var a := RotateStep(ttl, full, token, minted, now).0;
            RotateStep(ttl, a, full.rows[k].hash.token, probe, now).1 == Invalid
    ensures var b := RotateStep(ttl, kept, token, minted, now).0;
            RotateStep(ttl, b, full.rows[k].hash.token, probe, now).1.Rotated?
  {
    var id := Find(full.rows, Digest(token)).value;
    FindAlike(full, kept, pruned, now, Digest(token));
    RevokedRejects(ttl, full, full.rows[id].owner, now, k, probe);
    LiveRotates(ttl, kept, full.rows[k].hash.token, probe, now, k);
  }

  lemma RevokedRejects(ttl: nat, full: Table, owner: Owner, now: int, k: nat, probe: string)
    requires Linked(full) && k in full.rows && full.rows[k].owner == owner && full.rows[k].revokedAt.None?
    ensures RotateStep(ttl, Table(RevokeAll(full.rows, owner, now), full.nextId), full.rows[k].hash.token, probe, now).1 == Invalid
  {
    var rows := RevokeAll(full.rows, owner, now);
    assert k in rows && rows[k].hash == Digest(full.rows[k].hash.token);
    assert forall j :: j in rows && rows[j].hash == rows[k].hash ==> j == k;
    assert Find(rows, Digest(full.rows[k].hash.token)) == Some(k);
  }

  /** After the lost alarm, presenting the live token tells the runs apart. */
  lemma LostShows(ttl: nat, start: int, calls: seq<Call>, last: Call) returns (probe: Call)
    requires Admissible(start, calls + [last]) && RunAlike(ttl, start, calls) && last.op.Rotate?
    requires AlarmLost(Run(ttl, WithoutPrunes(calls)), LastPrune(start, calls), last.op.token, last.at)
    ensures probe.op.Rotate? && Admissible(start, calls + [last] + [probe])
    ensures Replies(ttl, calls + [last] + [probe]) != Replies(ttl, WithoutPrunes(calls + [last] + [probe]))
  {
    var full, kept, pruned := Run(ttl, WithoutPrunes(calls)), Run(ttl, calls), LastPrune(start, calls);
    var id := Find(full.rows, Digest(last.op.token)).value;
    var k :| k in full.rows && full.rows[k].owner == full.rows[id].owner && full.rows[k].revokedAt.None? && full.rows[k].expiresAt > last.at;
    probe := LonelyProbe(start, calls + [last], full.rows[k].hash.token);
    AdmissiblePrefix(start, calls + [last], |calls|);
    assert (calls + [last])[..|calls|] == calls;
    AlikeLater(full, kept, pruned, Now(start, calls), last.at);
    ProbeIsNew(ttl, start, calls, last, probe);
    TakenAlike(full, kept, pruned, last.at, Digest(probe.op.minted));
    TablesPart(ttl, full, kept, pruned, last.at, last.op.token, last.op.minted, k, probe.op.minted);
    LastReplies(ttl, calls, last, probe);
  }

  lemma ProbeIsNew(ttl: nat, start: int, calls: seq<Call>, last: Call, probe: Call)
    requires Admissible(start, calls + [last] + [probe]) && probe.op.Rotate?
    ensures !Taken(Run(ttl, WithoutPrunes(calls)).rows, Digest(probe.op.minted))
  {
    var all := calls + [last] + [probe];
    assert all[|calls| + 1] == probe;
    assert forall i :: 0 <= i < |calls| ==> all[i] == calls[i];
    assert Admissible(start, calls + [probe]);
    MintIsNew(ttl, start, calls, probe);
  }

  lemma LastReplies(ttl: nat, calls: seq<Call>, last: Call, probe: Call)
    requires last.op.Rotate? && probe.op.Rotate?
    requires var a, b := Apply(ttl, Run(ttl, WithoutPrunes(calls)), last), Apply(ttl, Run(ttl, calls), last);
             RotateStep(ttl, a, probe.op.token, probe.op.minted, probe.at).1 != RotateStep(ttl, b, probe.op.token, probe.op.minted, probe.at).1
    ensures Replies(ttl, calls + [last] + [probe]) != Replies(ttl, WithoutPrunes(calls + [last] + [probe]))
  {
    RunExtends(ttl, calls, last);
    RunExtends(ttl, calls + [last], probe);
    RunExtends(ttl, WithoutPrunes(calls), last);
    RunExtends(ttl, WithoutPrunes(calls) + [last], probe);
    LastOf(Replies(ttl, calls + [last]), Replies(ttl, WithoutPrunes(calls) + [last]),
           Presented(RotateStep(ttl, Run(ttl, calls + [last]), probe.op.token, probe.op.minted, probe.at).1),
           Presented(RotateStep(ttl, Run(ttl, WithoutPrunes(calls) + [last]), probe.op.token, probe.op.minted, probe.at).1));
  }

  lemma LastOf(xs: seq<Reply>, ys: seq<Reply>, x: Reply, y: Reply)
    requires x != y
    ensures xs + [x] != ys + [y]
  {
    var a, b := xs + [x], ys + [y];
    assert a[|a| - 1] == x && b[|b| - 1] == y;
  }

  /** However far the run has come, one more presentation is answered as if nothing had been pruned. */
  ghost predicate ProbesAgree(ttl: nat, start: int, calls: seq<Call>) {
    forall n, probe: Call :: 0 <= n <= |calls| && probe.op.Rotate? && Admissible(start, calls[..n] + [probe]) ==>
      Replies(ttl, calls[..n] + [probe]) == Replies(ttl, WithoutPrunes(calls[..n] + [probe]))
  }

  lemma {:induction false} FirstLost(ttl: nat, start: int, calls: seq<Call>, n: nat) returns (m: nat)
    requires LostAt(ttl, start, calls, n)
    ensures m <= n && LostAt(ttl, start, calls, m) && forall k :: 0 <= k < m ==> !LostAt(ttl, start, calls, k)
  {
    if k: nat :| k < n && LostAt(ttl, start, calls, k) {
      m := FirstLost(ttl, start, calls, k);
    } else {
      m := n;
    }
  }

  lemma LostPrefixShows(ttl: nat, start: int, calls: seq<Call>, m: nat) returns (probe: Call)
    requires Admissible(start, calls) && LostAt(ttl, start, calls, m) && RunAlike(ttl, start, calls[..m])
    ensures probe.op.Rotate? && Admissible(start, calls[..m + 1] + [probe])
    ensures Replies(ttl, calls[..m + 1] + [probe]) != Replies(ttl, WithoutPrunes(calls[..m + 1] + [probe]))
  {
    AdmissiblePrefix(start, calls, m + 1);
    assert calls[..m + 1] == calls[..m] + [calls[m]];
    probe := LostShows(ttl, start, calls[..m], calls[m]);
  }

  lemma LostRunShows(ttl: nat, start: int, calls: seq<Call>, n: nat)
    requires Admissible(start, calls) && LostAt(ttl, start, calls, n)
    ensures !ProbesAgree(ttl, start, calls)
  {
    var m := FirstLost(ttl, start, calls, n);
    QuietRunAlike(ttl, start, calls, m);
    var probe := LostPrefixShows(ttl, start, calls, m);
  }

  /**
   * A run can be told from the same run without prunings, by one more presentation at some
   * point of it, exactly when it presents a replaced token that was pruned while its owner
   * held a live one: the reuse that should have revoked that token goes undetected.
   */
  lemma PruningInvisibleIff(ttl: nat, start: int, calls: seq<Call>)
    requires Admissible(start, calls)
    ensures ProbesAgree(ttl, start, calls) <==> !LosesAlarm(ttl, start, calls)
  {
    if LosesAlarm(ttl, start, calls) {
      var n :| LostAt(ttl, start, calls, n);
      LostRunShows(ttl, start, calls, n);
    } else {
      forall n, probe: Call | 0 <= n <= |calls| && probe.op.Rotate? && Admissible(start, calls[..n] + [probe])
        ensures Replies(ttl, calls[..n] + [probe]) == Replies(ttl, WithoutPrunes(calls[..n] + [probe]))
      {
        assert forall m :: 0 <= m < n ==> !LostAt(ttl, start, calls, m);
        QuietRunAlike(ttl, start, calls, n);
        ExtendAlike(ttl, start, calls[..n], probe);
      }
    }
  }

  // ---------- A run that loses an alarm ----------

  /**
   * "a" is rotated into "b" two milliseconds after its issue, pruned in the first millisecond
   * after it has expired, and then presented again while "b" is still live.
   */
  function LateReuse(ttl: nat, owner: Owner): seq<Call> {
    var late := Expiry(ttl, 1);
    [Call(Issue(owner, "a"), 0), Call(Rotate("a", "b"), 2), Call(Prune, late), Call(Rotate("a", "c"), late)]
  }

  function Issued(ttl: nat, owner: Owner): Table {
    Table(map[1 := NewRow(Digest("a"), owner, Expiry(ttl, 0))], 2)
  }

  function Rotated(ttl: nat, owner: Owner): Table {
    Table(map[1 := Replaced(NewRow(Digest("a"), owner, Expiry(ttl, 0)), 2, 2), 2 := NewRow(Digest("b"), owner, Expiry(ttl, 2))], 3)
  }

  lemma IssuesFirst(ttl: nat, owner: Owner)
    ensures Apply(ttl, EMPTY, Call(Issue(owner, "a"), 0)) == Issued(ttl, owner)
  {
  }

  lemma RotatesFirst(ttl: nat, owner: Owner)
    requires ttl > 0
    ensures Apply(ttl, Issued(ttl, owner), Call(Rotate("a", "b"), 2)) == Rotated(ttl, owner)
  {
    var t := Issued(ttl, owner);
    assert 1 in t.rows && t.rows[1].hash == Digest("a");
    assert Find(t.rows, Digest("a")) == Some(1);
    assert "a" != "b";
    assert !Taken(t.rows, Digest("b"));
  }

  lemma ReuseIsLost(ttl: nat, owner: Owner)
    ensures AlarmLost(Rotated(ttl, owner), Expiry(ttl, 1), "a", Expiry(ttl, 1))
  {
    var t := Rotated(ttl, owner);
    assert "a" != "b";
    assert 1 in t.rows && t.rows[1].hash == Digest("a");
    assert Find(t.rows, Digest("a")) == Some(1);
    assert 2 in t.rows && t.rows[2].owner == owner && t.rows[2].revokedAt.None? && t.rows[2].expiresAt > Expiry(ttl, 1);
  }

  lemma LateReuseRun(ttl: nat, owner: Owner)
    requires ttl > 0
    ensures var calls := LateReuse(ttl, owner);
            Run(ttl, WithoutPrunes(calls[..3])) == Rotated(ttl, owner) && LastPrune(0, calls[..3]) == Expiry(ttl, 1)
  {
    var calls := LateReuse(ttl, owner);
    assert calls[..1] == [] + [calls[0]] && calls[..2] == calls[..1] + [calls[1]] && calls[..3] == calls[..2] + [calls[2]];
    RunExtends(ttl, [], calls[0]);
    RunExtends(ttl, calls[..1], calls[1]);
    RunExtends(ttl, calls[..2], calls[2]);
    RunExtends(ttl, WithoutPrunes([]), calls[0]);
    RunExtends(ttl, WithoutPrunes(calls[..1]), calls[1]);
    assert WithoutPrunes(calls[..3]) == WithoutPrunes(calls[..2]);
    IssuesFirst(ttl, owner);
    RotatesFirst(ttl, owner);
  }

  lemma LateReuseAdmissible(ttl: nat, owner: Owner)
    requires ttl > 0
    ensures Admissible(0, LateReuse(ttl, owner))
  {
    assert "a" != "b" && "a" != "c" && "b" != "c";
  }

  /** Whatever the lifetime, some run loses an alarm, and one more presentation shows it. */
  lemma AlarmCanBeLost(ttl: nat, owner: Owner)
    requires ttl > 0
    ensures Admissible(0, LateReuse(ttl, owner)) && LosesAlarm(ttl, 0, LateReuse(ttl, owner))
    ensures !ProbesAgree(ttl, 0, LateReuse(ttl, owner))
  {
    LateReuseAdmissible(ttl, owner);
    LateReuseRun(ttl, owner);
    ReuseIsLost(ttl, owner);
    assert LostAt(ttl, 0, LateReuse(ttl, owner), 3);
    PruningInvisibleIff(ttl, 0, LateReuse(ttl, owner));
  }

  // ---------- A rotation in flight ----------

  /** The rotation's transaction commits. */
  ghost predicate Commits(ttl: nat, w: P.World, i: nat)
    requires i < |w.flights|
  {
    |P.AdvanceFlight(ttl, w, i, "").swaps| > |w.swaps|
  }

  lemma PruneThenCommit(ttl: nat, w: P.World, i: nat)
    requires P.Invariant(ttl, w) && i < |w.flights| && w.flights[i].Exchanging? && !Taken(w.table.rows, w.flights[i].hash)
    ensures Commits(ttl, P.Apply(ttl, w, P.Step.Prune), i) <==> Commits(ttl, w, i) && w.flights[i].row.expiresAt >= w.now
  {
    assert P.Faithful(ttl, w.table, w.now, w.flights[i]);
  }

  /**
   * In any interleaving, a pruning between a rotation's decision and its transaction defeats
   * the rotation exactly when the presented token, still live at the decision, has expired by
   * then; a rotation that loses anyway is not affected.
   */
  lemma PruneInFlightIff(ttl: nat, start: int, steps: seq<P.Step>, i: nat)
    requires var w := P.Continue(ttl, P.Start(start), steps);
             i < |w.flights| && w.flights[i].Exchanging? && !Taken(w.table.rows, w.flights[i].hash)
    ensures var w := P.Continue(ttl, P.Start(start), steps);
            Commits(ttl, P.Apply(ttl, w, P.Step.Prune), i) <==> Commits(ttl, w, i) && w.flights[i].row.expiresAt >= w.now
  {
    P.RunKeepsInvariant(ttl, start, steps);
    PruneThenCommit(ttl, P.Continue(ttl, P.Start(start), steps), i);
  }
}
