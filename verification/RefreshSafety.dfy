/** What refresh-token rotation guarantees over every interleaving. */
module RefreshSafety {
  import opened Options
  import opened RefreshTokens
  import opened RefreshProtocol

  // ---------- Each token is exchanged once ----------

  /** No token is rotated twice, no row replaces two others, and replacements have greater ids. */
  lemma RotatedOnce(ttl: nat, start: int, steps: seq<Step>, i: nat, j: nat)
    requires i < j < |Continue(ttl, Start(start), steps).swaps|
    ensures var swaps := Continue(ttl, Start(start), steps).swaps;
            swaps[i].from != swaps[j].from && swaps[i].to != swaps[j].to && swaps[i].from < swaps[i].to
  {
    var w := Continue(ttl, Start(start), steps);
    RunKeepsInvariant(ttl, start, steps);
    SwapsDistinct(w.table, w.swaps, i, j);
  }

  lemma SwapsDistinct(t: Table, swaps: seq<Swap>, i: nat, j: nat)
    requires SwapsSound(t, swaps) && i < j < |swaps|
    ensures swaps[i].from != swaps[j].from && swaps[i].to != swaps[j].to && swaps[i].from < swaps[i].to
  {
    assert swaps[i] in swaps;
  }

  lemma LinksInjective(t: Table, swaps: seq<Swap>, i: nat, j: nat)
    requires SwapsSound(t, swaps)
    requires i in t.rows && j in t.rows && t.rows[i].replacedBy.Some? && t.rows[i].replacedBy == t.rows[j].replacedBy
    ensures i == j && i < t.rows[i].replacedBy.value
  {
    var next := t.rows[i].replacedBy.value;
    var a :| 0 <= a < |swaps| && swaps[a] == Swap(i, next, t.rows[i].owner);
    var b :| 0 <= b < |swaps| && swaps[b] == Swap(j, next, t.rows[j].owner);
    assert a == b;
  }

  /** In the table itself, `replacedById` is injective and grows. */
  lemma ReplacementsInjective(ttl: nat, start: int, steps: seq<Step>, i: nat, j: nat)
    requires var rows := Continue(ttl, Start(start), steps).table.rows;
             i in rows && j in rows && rows[i].replacedBy.Some? && rows[i].replacedBy == rows[j].replacedBy
    ensures i == j && i < Continue(ttl, Start(start), steps).table.rows[i].replacedBy.value
  {
    var w := Continue(ttl, Start(start), steps);
    RunKeepsInvariant(ttl, start, steps);
    LinksInjective(w.table, w.swaps, i, j);
  }

  /**
   * A replaced row is revoked, and its successor is in the table as long as the row itself:
   * younger, of the same owner, and expiring no earlier.
   */
  lemma SuccessorsStay(ttl: nat, start: int, steps: seq<Step>)
    ensures ChainsSound(Continue(ttl, Start(start), steps).table.rows)
  {
    RunKeepsInvariant(ttl, start, steps);
  }

  // ---------- Unrevoked rows and issues ----------

  function Live(rows: map<nat, Row>, owner: Owner): set<nat> {
    set id | id in rows && rows[id].owner == owner && rows[id].revokedAt.None?
  }

  function Issues(grants: seq<Grant>, owner: Owner): nat {
    if grants == [] then 0
    else Issues(grants[..|grants| - 1], owner) + if grants[|grants| - 1].owner == owner then 1 else 0
  }

  lemma {:induction false} IdsAtMostIssues(ids: set<nat>, grants: seq<Grant>, owner: Owner)
    requires forall id :: id in ids ==> Grant(id, owner) in grants
    ensures |ids| <= Issues(grants, owner)
  {
    if grants == [] {
      assert ids == {};
    } else {
      var n := |grants| - 1;
      var last := grants[n];
      var rest := if last.owner == owner then ids - {last.id} else ids;
      forall id | id in rest
        ensures Grant(id, owner) in grants[..n]
      {
        assert Grant(id, owner) in grants;
      }
      IdsAtMostIssues(rest, grants[..n], owner);
      assert ids <= rest + {last.id};
      Cover(ids, rest, last.id);
    }
  }

  lemma Cover(ids: set<nat>, rest: set<nat>, id: nat)
    requires ids <= rest + {id}
    ensures |ids| <= |rest| + 1
  {
    if id in ids {
      assert ids == (ids - {id}) + {id};
      KeysShrink(ids - {id}, rest);
    } else {
      KeysShrink(ids, rest);
    }
  }

  function Image(ids: set<nat>, f: map<nat, nat>): set<nat>
    requires ids <= f.Keys
  {
    set id | id in ids :: f[id]
  }

  lemma {:induction false} InjectiveImage(ids: set<nat>, f: map<nat, nat>)
    requires ids <= f.Keys
    requires forall i, j :: i in ids && j in ids && i != j ==> f[i] != f[j]
    ensures |Image(ids, f)| == |ids|
    decreases |ids|
  {
    if id :| id in ids {
      InjectiveImage(ids - {id}, f);
      assert Image(ids, f) == Image(ids - {id}, f) + {f[id]};
    }
  }

  lemma LiveAtMostGrants(t: Table, grants: seq<Grant>, origin: map<nat, nat>, owner: Owner)
    requires OriginsSound(t, grants, origin)
    ensures |Live(t.rows, owner)| <= Issues(grants, owner)
  {
    var ids := Live(t.rows, owner);
    assert forall id :: id in ids ==> id in origin;
    InjectiveImage(ids, origin);
    IdsAtMostIssues(Image(ids, origin), grants, owner);
  }

  /** However rotations race, an owner never has more unrevoked tokens than calls to `issue`. */
  lemma LiveAtMostIssues(ttl: nat, start: int, steps: seq<Step>, owner: Owner)
    ensures var w := Continue(ttl, Start(start), steps);
            |Live(w.table.rows, owner)| <= Issues(w.grants, owner)
  {
    var w := Continue(ttl, Start(start), steps);
    RunKeepsInvariant(ttl, start, steps);
    LiveAtMostGrants(w.table, w.grants, w.origin, owner);
  }

  // ---------- Sessions that have ended stay ended ----------

  /** Every unrevoked row belongs to a session that `p` allows. */
  ghost predicate Confined(t: Table, origin: map<nat, nat>, p: (Owner, nat) -> bool) {
    forall id :: id in t.rows && t.rows[id].revokedAt.None? ==> id in origin && p(t.rows[id].owner, origin[id])
  }

  ghost predicate SwapAllowed(s: Swap, origin: map<nat, nat>, p: (Owner, nat) -> bool) {
    s.from in origin && origin[s.from] <= s.from && p(s.owner, origin[s.from])
  }

  /** Rotations from index `n` on used tokens of sessions that `p` allows. */
  ghost predicate SwapsConfined(w: World, n: nat, p: (Owner, nat) -> bool) {
    && n <= |w.swaps|
    && forall i :: n <= i < |w.swaps| ==> SwapAllowed(w.swaps[i], w.origin, p)
  }

  ghost predicate Later(p: (Owner, nat) -> bool, from: nat) {
    forall owner, k: nat :: k >= from ==> p(owner, k)
  }

  lemma AddStaysConfined(ttl: nat, w: World, row: Row, n: nat, p: (Owner, nat) -> bool)
    requires Invariant(ttl, w) && Confined(w.table, w.origin, p) && SwapsConfined(w, n, p) && Later(p, w.table.nextId)
    ensures Confined(Granted(w, row).table, Granted(w, row).origin, p) && SwapsConfined(Granted(w, row), n, p)
  {
  }

  lemma SwapStaysConfined(ttl: nat, w: World, used: nat, row: Row, at: int, n: nat, p: (Owner, nat) -> bool)
    requires Invariant(ttl, w) && Confined(w.table, w.origin, p) && SwapsConfined(w, n, p)
    requires used in w.table.rows ==> row.owner == w.table.rows[used].owner
    ensures Confined(Swapped(w, used, row, at).table, Swapped(w, used, row, at).origin, p)
    ensures SwapsConfined(Swapped(w, used, row, at), n, p)
  {
    var (out, done) := Exchange(w.table, used, row, at);
    if done {
      ExchangeStaysConfined(ttl, w, used, row, at, out, n, p);
    }
  }

  lemma ExchangeStaysConfined(ttl: nat, w: World, used: nat, row: Row, at: int, out: Table, n: nat, p: (Owner, nat) -> bool)
    requires Sound(w.table) && OriginsSound(w.table, w.grants, w.origin) && Confined(w.table, w.origin, p) && SwapsConfined(w, n, p)
    requires used in w.table.rows && row.owner == w.table.rows[used].owner && w.table.rows[used].revokedAt.None?
    requires out == Table(AfterExchange(w.table, used, row, at), w.table.nextId + 1)
    ensures Confined(out, Exchanged(w, out, used, row).origin, p)
    ensures SwapsConfined(Exchanged(w, out, used, row), n, p)
  {
    assert w.table.nextId !in w.origin;
  }

  lemma WeakenStaysConfined(t: Table, out: map<nat, Row>, origin: map<nat, nat>, p: (Owner, nat) -> bool)
    requires Confined(t, origin, p) && Weakens(out, t.rows)
    ensures Confined(Table(out, t.nextId), origin, p)
  {
  }

  ghost predicate Bound(w: World, n: nat, p: (Owner, nat) -> bool) {
    Confined(w.table, w.origin, p) && SwapsConfined(w, n, p) && Later(p, w.table.nextId)
  }

  lemma ExchangingStaysBound(ttl: nat, w: World, i: nat, minted: string, n: nat, p: (Owner, nat) -> bool)
    requires Invariant(ttl, w) && i < |w.flights| && w.flights[i].Exchanging? && Bound(w, n, p)
    ensures Bound(AdvanceFlight(ttl, w, i, minted), n, p)
  {
    var f := w.flights[i];
    assert Faithful(ttl, w.table, w.now, f);
    SwapStaysConfined(ttl, w, f.id, NewRow(f.hash, f.row.owner, f.expiresAt), f.at, n, p);
  }

  lemma WeakenStaysBound(w: World, out: map<nat, Row>, i: nat, n: nat, p: (Owner, nat) -> bool)
    requires i < |w.flights| && Bound(w, n, p) && Weakens(out, w.table.rows)
    ensures Bound(WithFlight(WithRows(w, out), i, Done), n, p)
  {
    WeakenStaysConfined(w.table, out, w.origin, p);
  }

  lemma AdvanceStaysBound(ttl: nat, w: World, i: nat, minted: string, n: nat, p: (Owner, nat) -> bool)
    requires Invariant(ttl, w) && i < |w.flights| && Bound(w, n, p)
    ensures Bound(AdvanceFlight(ttl, w, i, minted), n, p)
  {
    match w.flights[i] {
      case Minting(owner, hash, expiresAt) => AddStaysConfined(ttl, w, NewRow(hash, owner, expiresAt), n, p);
      case Looked(_, _) =>
      case Burning(owner, at) => WeakenStaysBound(w, RevokeAll(w.table.rows, owner, at), i, n, p);
      case Exchanging(_, _, _, _, _) => ExchangingStaysBound(ttl, w, i, minted, n, p);
      case LoggingOut(id) => WeakenStaysBound(w, RevokeOne(w.table.rows, id, w.now), i, n, p);
      case Done =>
    }
  }

  lemma StepStaysBound(ttl: nat, w: World, step: Step, n: nat, p: (Owner, nat) -> bool)
    requires Invariant(ttl, w) && Bound(w, n, p)
    ensures Bound(Apply(ttl, w, step), n, p)
  {
    match step {
      case Advance(i, minted) =>
        if i < |w.flights| {
          AdvanceStaysBound(ttl, w, i, minted, n, p);
        }
      case RevokeAllFor(owner) => WeakenStaysConfined(w.table, RevokeAll(w.table.rows, owner, w.now), w.origin, p);
      case Prune => WeakenStaysConfined(w.table, DeleteExpired(w.table.rows, w.now), w.origin, p);
      case _ =>
    }
  }

  lemma {:induction false} ContinueStaysBound(ttl: nat, w: World, steps: seq<Step>, n: nat, p: (Owner, nat) -> bool)
    requires Invariant(ttl, w) && Bound(w, n, p)
    ensures Invariant(ttl, Continue(ttl, w, steps)) && Bound(Continue(ttl, w, steps), n, p)
  {
    if steps != [] {
      var v := Continue(ttl, w, steps[..|steps| - 1]);
      ContinueStaysBound(ttl, w, steps[..|steps| - 1], n, p);
      StepKeepsInvariant(ttl, v, steps[|steps| - 1]);
      StepStaysBound(ttl, v, steps[|steps| - 1], n, p);
    }
  }

  /** The step revokes all of an owner's tokens: on request, or because reuse was detected. */
  ghost predicate RevokesAll(w: World, step: Step, owner: Owner) {
    || step == RevokeAllFor(owner)
    || (step.Advance? && step.flight < |w.flights| && w.flights[step.flight].Burning? && w.flights[step.flight].owner == owner)
  }

  /**
   * Once all of an owner's tokens have been revoked, no token with an older id is ever rotated
   * again, even by a request that had looked it up before; and every unrevoked token the owner
   * has later descends from a later issue.
   */
  lemma RevokeAllIsFinal(ttl: nat, start: int, before: seq<Step>, last: Step, owner: Owner, after: seq<Step>)
    requires RevokesAll(Continue(ttl, Start(start), before), last, owner)
    ensures var v := Apply(ttl, Continue(ttl, Start(start), before), last);
            var w := Continue(ttl, v, after);
            && |v.swaps| <= |w.swaps|
            && (forall i :: |v.swaps| <= i < |w.swaps| && w.swaps[i].owner == owner ==> w.swaps[i].from >= v.table.nextId)
            && (forall id :: id in Live(w.table.rows, owner) ==> id in w.origin && w.origin[id] >= v.table.nextId)
  {
    var u := Continue(ttl, Start(start), before);
    var v := Apply(ttl, u, last);
    RunKeepsInvariant(ttl, start, before);
    StepKeepsInvariant(ttl, u, last);
    FromRevokeAll(ttl, u, last, owner);
    var n := v.table.nextId;
    ContinueStaysBound(ttl, v, after, |v.swaps|, (o, k) => o == owner ==> k >= n);
  }

  lemma FromRevokeAll(ttl: nat, u: World, last: Step, owner: Owner)
    requires Invariant(ttl, u) && RevokesAll(u, last, owner)
    ensures var v := Apply(ttl, u, last);
            var n := v.table.nextId;
            Bound(v, |v.swaps|, (o, k) => o == owner ==> k >= n)
  {
  }

  // ---------- Logout ----------

  ghost predicate SessionLive(w: World, session: nat) {
    exists id :: id in w.table.rows && w.table.rows[id].revokedAt.None? && id in w.origin && w.origin[id] == session
  }

  /** The logout write ends its session exactly when it finds the presented token still unrevoked. */
  lemma LogoutEndsSessionIff(ttl: nat, w: World, i: nat, minted: string, id: nat)
    requires Invariant(ttl, w) && i < |w.flights| && w.flights[i] == LoggingOut(id) && id in w.origin
    requires SessionLive(w, w.origin[id])
    ensures !SessionLive(AdvanceFlight(ttl, w, i, minted), w.origin[id]) <==> id in w.table.rows && w.table.rows[id].revokedAt.None?
  {
    var v := AdvanceFlight(ttl, w, i, minted);
    if id in w.table.rows && w.table.rows[id].revokedAt.None? {
    } else {
      var k :| k in w.table.rows && w.table.rows[k].revokedAt.None? && k in w.origin && w.origin[k] == w.origin[id];
      assert k in v.table.rows && v.table.rows[k].revokedAt.None?;
    }
  }

  /** A session without unrevoked tokens stays so, and none of its tokens is rotated again. */
  lemma EndedForGood(ttl: nat, w: World, session: nat, after: seq<Step>)
    requires Invariant(ttl, w) && session < w.table.nextId && !SessionLive(w, session)
    ensures var v := Continue(ttl, w, after);
            && !SessionLive(v, session) && |w.swaps| <= |v.swaps|
            && forall i :: |w.swaps| <= i < |v.swaps| ==> v.swaps[i].from in v.origin && v.origin[v.swaps[i].from] != session
  {
    ContinueStaysBound(ttl, w, after, |w.swaps|, (o, k) => k != session);
  }

  /** A logout that is not overtaken by a rotation ends its whole session, for good. */
  lemma LogoutIsFinal(ttl: nat, start: int, before: seq<Step>, i: nat, id: nat, after: seq<Step>)
    requires var u := Continue(ttl, Start(start), before);
             i < |u.flights| && u.flights[i] == LoggingOut(id) && id in u.table.rows && u.table.rows[id].revokedAt.None?
    ensures var u := Continue(ttl, Start(start), before);
            id in u.origin && !SessionLive(Continue(ttl, AdvanceFlight(ttl, u, i, ""), after), u.origin[id])
  {
    var u := Continue(ttl, Start(start), before);
    RunKeepsInvariant(ttl, start, before);
    FromLogout(ttl, u, i, id, after);
  }

  lemma FromLogout(ttl: nat, u: World, i: nat, id: nat, after: seq<Step>)
    requires Invariant(ttl, u) && i < |u.flights| && u.flights[i] == LoggingOut(id)
    requires id in u.table.rows && u.table.rows[id].revokedAt.None?
    ensures id in u.origin && !SessionLive(Continue(ttl, AdvanceFlight(ttl, u, i, ""), after), u.origin[id])
  {
    AdvanceKeepsInvariant(ttl, u, i, "");
    LogoutEndsSessionIff(ttl, u, i, "", id);
    EndedForGood(ttl, AdvanceFlight(ttl, u, i, ""), u.origin[id], after);
  }

  /** A logout and a rotation of the same token, both looked up before the rotation commits and the logout writes. */
  function Overtaken(owner: Owner): seq<Step> {
    [BeginIssue(owner, "a"), Advance(0, ""), BeginLogout("a"), BeginRotate("a"), Advance(2, "b"), Advance(2, ""), Advance(1, "")]
  }

  function FirstRow(ttl: nat, owner: Owner): Row {
    NewRow(Digest("a"), owner, Expiry(ttl, 0))
  }

  function BothLooked(ttl: nat, owner: Owner): World {
    World(Table(map[1 := FirstRow(ttl, owner)], 2), 0, [Done, LoggingOut(1), Looked(1, FirstRow(ttl, owner))],
          [Grant(1, owner)], [], map[1 := 1])
  }

  lemma ReachesBothLooked(ttl: nat, owner: Owner)
    ensures Apply(ttl, Apply(ttl, Apply(ttl, Apply(ttl, Start(0), BeginIssue(owner, "a")), Advance(0, "")), BeginLogout("a")), BeginRotate("a"))
         == BothLooked(ttl, owner)
  {
    var r := FirstRow(ttl, owner);
    var issued := World(Table(map[1 := r], 2), 0, [Done], [Grant(1, owner)], [], map[1 := 1]);
    assert Apply(ttl, Apply(ttl, Start(0), BeginIssue(owner, "a")), Advance(0, "")) == issued;
    assert 1 in issued.table.rows && issued.table.rows[1].hash == Digest("a");
    assert Find(issued.table.rows, Digest("a")) == Some(1);
  }

  lemma LogoutLoses(ttl: nat, owner: Owner)
    requires ttl > 0
    ensures var w := Apply(ttl, Apply(ttl, Apply(ttl, BothLooked(ttl, owner), Advance(2, "b")), Advance(2, "")), Advance(1, ""));
            SessionLive(w, 1)
  {
    var r := FirstRow(ttl, owner);
    var u := BothLooked(ttl, owner);
    var decided := WithFlight(u, 2, Exchanging(1, r, Digest("b"), Expiry(ttl, 0), 0));
    assert Apply(ttl, u, Advance(2, "b")) == decided;
    assert "a" != "b";
    var v := Apply(ttl, decided, Advance(2, ""));
    assert 2 in v.table.rows && v.table.rows[2].revokedAt.None? && v.origin[2] == 1;
    var w := Apply(ttl, v, Advance(1, ""));
    assert 2 in w.table.rows && w.table.rows[2].revokedAt.None? && 2 in w.origin && w.origin[2] == 1;
  }

  lemma {:induction false} ContinueUnfolds(ttl: nat, w: World, steps: seq<Step>, last: Step)
    ensures Continue(ttl, w, steps + [last]) == Apply(ttl, Continue(ttl, w, steps), last)
  {
    assert (steps + [last])[..|steps|] == steps;
  }

  /** A rotation that commits between a logout's lookup and its write survives the logout. */
  lemma LogoutCanBeOvertaken(ttl: nat, owner: Owner)
    requires ttl > 0
    ensures SessionLive(Continue(ttl, Start(0), Overtaken(owner)), 1)
  {
    var s := Overtaken(owner);
    assert s[..1] == [] + [s[0]] && s[..2] == s[..1] + [s[1]] && s[..3] == s[..2] + [s[2]] && s[..4] == s[..3] + [s[3]]
        && s[..5] == s[..4] + [s[4]] && s[..6] == s[..5] + [s[5]] && s == s[..6] + [s[6]];
    ContinueUnfolds(ttl, Start(0), [], s[0]);
    ContinueUnfolds(ttl, Start(0), s[..1], s[1]);
    ContinueUnfolds(ttl, Start(0), s[..2], s[2]);
    ContinueUnfolds(ttl, Start(0), s[..3], s[3]);
    ContinueUnfolds(ttl, Start(0), s[..4], s[4]);
    ContinueUnfolds(ttl, Start(0), s[..5], s[5]);
    ContinueUnfolds(ttl, Start(0), s[..6], s[6]);
    ReachesBothLooked(ttl, owner);
    LogoutLoses(ttl, owner);
  }

  // ---------- Pruning ----------

  /** An unrevoked row of the owner outlives the pruning. */
  ghost predicate Spares(rows: map<nat, Row>, owner: Owner, now: int) {
    exists k :: k in rows && rows[k].expiresAt >= now && rows[k].owner == owner && rows[k].revokedAt.None?
  }

  /** A presentation that would have revoked tokens still in the table, by a row the pruning removes. */
  ghost predicate AlarmLost(t: Table, token: string, now: int) {
    token != "" &&
    match Find(t.rows, Digest(token))
    case None => false
    case Some(id) =>
      t.rows[id].expiresAt < now && Judge(t.rows[id], now) == Reuse && Spares(t.rows, t.rows[id].owner, now)
  }

  lemma FindKept(rows: map<nat, Row>, hash: Digest, now: int)
    requires UniqueHashes(rows)
    ensures UniqueHashes(DeleteExpired(rows, now))
    ensures Find(DeleteExpired(rows, now), hash) ==
            match Find(rows, hash) case None => None case Some(id) => if rows[id].expiresAt >= now then Some(id) else None
  {
    var kept := DeleteExpired(rows, now);
    var found := Find(rows, hash);
    if found.Some? && rows[found.value].expiresAt >= now {
      assert found.value in kept;
    }
  }

  lemma PruneCommutesWithRevokeAll(rows: map<nat, Row>, owner: Owner, at: int, now: int)
    ensures DeleteExpired(RevokeAll(rows, owner, at), now) == RevokeAll(DeleteExpired(rows, now), owner, at)
  {
  }

  lemma PruneThenExchange(t: Table, id: nat, row: Row, at: int, now: int)
    requires Sound(t) && !Taken(t.rows, row.hash) && row.expiresAt >= now && id in t.rows && t.rows[id].expiresAt >= now
    ensures var kept := Table(DeleteExpired(t.rows, now), t.nextId);
            && Exchange(kept, id, row, at).1 == Exchange(t, id, row, at).1
            && Exchange(kept, id, row, at).0.rows == DeleteExpired(Exchange(t, id, row, at).0.rows, now)
  {
  }

  /**
   * Whether a later presentation succeeds never depends on a pruning in between, and neither
   * does what it leaves in the table, except when the pruning removed the evidence of reuse.
   */
  lemma PruneLosesOnlyAlarms(ttl: nat, t: Table, now: int, token: string, minted: string, at: int)
    requires Sound(t) && now <= at && !Taken(t.rows, Digest(minted))
    ensures var kept := Table(DeleteExpired(t.rows, now), t.nextId);
            && RotateStep(ttl, kept, token, minted, at).1 == RotateStep(ttl, t, token, minted, at).1
            && (RotateStep(ttl, kept, token, minted, at).0.rows == DeleteExpired(RotateStep(ttl, t, token, minted, at).0.rows, now)
                <==> !AlarmLost(t, token, now))
  {
    FindKept(t.rows, Digest(token), now);
    var found := Find(t.rows, Digest(token));
    if token != "" && found.Some? {
      PruneThenRotateRow(ttl, t, now, found.value, minted, at);
    }
  }

  lemma PruneThenRotateRow(ttl: nat, t: Table, now: int, id: nat, minted: string, at: int)
    requires Sound(t) && now <= at && !Taken(t.rows, Digest(minted)) && id in t.rows
    ensures var kept := Table(DeleteExpired(t.rows, now), t.nextId);
            var (out, outcome) := RotateRow(ttl, t, id, t.rows[id], minted, at);
            if id in kept.rows then
              RotateRow(ttl, kept, id, kept.rows[id], minted, at) == (Table(DeleteExpired(out.rows, now), out.nextId), outcome)
            else
              && outcome == Invalid
              && (kept.rows == DeleteExpired(out.rows, now) <==> !(Judge(t.rows[id], now) == Reuse && Spares(t.rows, t.rows[id].owner, now)))
  {
    var kept := DeleteExpired(t.rows, now);
    match Judge(t.rows[id], at) {
      case Reuse =>
        PruneCommutesWithRevokeAll(t.rows, t.rows[id].owner, at, now);
        RevokeAllIdle(kept, t.rows[id].owner, at);
        SparesKept(t.rows, t.rows[id].owner, now);
      case Reject =>
      case Accept =>
        PruneThenExchange(t, id, NewRow(Digest(minted), t.rows[id].owner, Expiry(ttl, at)), at, now);
    }
  }

  lemma SparesKept(rows: map<nat, Row>, owner: Owner, now: int)
    ensures Spares(rows, owner, now) <==> !forall k :: k in DeleteExpired(rows, now) && rows[k].owner == owner ==> rows[k].revokedAt.Some?
  {
    if k :| k in rows && rows[k].expiresAt >= now && rows[k].owner == owner && rows[k].revokedAt.None? {
      assert k in DeleteExpired(rows, now);
    }
  }

  lemma RevokeAllIdle(rows: map<nat, Row>, owner: Owner, at: int)
    ensures RevokeAll(rows, owner, at) == rows <==> forall k :: k in rows && rows[k].owner == owner ==> rows[k].revokedAt.Some?
  {
    if k :| k in rows && rows[k].owner == owner && rows[k].revokedAt.None? {
      assert RevokeAll(rows, owner, at)[k] != rows[k];
    } else {
      assert forall k :: k in rows ==> RevokeAll(rows, owner, at)[k] == rows[k];
    }
  }

  // ---------- One request at a time ----------

  function Alone(t: Table, now: int): World {
    World(t, now, [], [], [], map[])
  }

  /** A rotation that nothing interleaves with is the atomic one. */
  lemma RotateAlone(ttl: nat, t: Table, token: string, minted: string, now: int)
    ensures var w := Apply(ttl, Apply(ttl, Apply(ttl, Alone(t, now), BeginRotate(token)), Advance(0, minted)), Advance(0, ""));
            && w.table == RotateStep(ttl, t, token, minted, now).0
            && (|w.swaps| == 1 <==> RotateStep(ttl, t, token, minted, now).1.Rotated?)
  {
  }

  /** And it commits the swap that the caller is told about. */
  lemma RotateAloneReports(ttl: nat, t: Table, token: string, minted: string, now: int, o: Owner, e: int)
    requires Sound(t) && RotateStep(ttl, t, token, minted, now).1 == Rotated(o, e)
    ensures var w := Apply(ttl, Apply(ttl, Apply(ttl, Alone(t, now), BeginRotate(token)), Advance(0, minted)), Advance(0, ""));
            |w.swaps| == 1 && w.swaps[0].owner == o && w.swaps[0].to in w.table.rows
            && w.table.rows[w.swaps[0].to] == Row(Digest(minted), o, e, None, None, None)
  {
    RotateAlone(ttl, t, token, minted, now);
    var id := RotatedReports(ttl, t, token, minted, now, o, e);
  }

  /** So is a logout. */
  lemma LogoutAlone(ttl: nat, t: Table, token: string, now: int)
    ensures Apply(ttl, Apply(ttl, Alone(t, now), BeginLogout(token)), Advance(0, "")).table == LogoutStep(t, token, now)
  {
  }
}
