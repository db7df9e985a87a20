/**
 * Overlapping refresh-token requests. Each statement, and the rotation's transaction, is one
 * atomic step; requests in flight interleave freely and act on what they read earlier.
 */
module RefreshProtocol {
  import opened Options
  import opened RefreshTokens

  /** A request between two of its statements. */
  datatype Flight =
    | Minting(owner: Owner, hash: Digest, expiresAt: int)
    | Looked(id: nat, row: Row)
    | Burning(owner: Owner, at: int)
    | Exchanging(id: nat, row: Row, hash: Digest, expiresAt: int, at: int)
    | LoggingOut(id: nat)
    | Done

  /** A completed `issue`, by the id of its row. */
  datatype Grant = Grant(id: nat, owner: Owner)

  /** A committed rotation. */
  datatype Swap = Swap(from: nat, to: nat, owner: Owner)

  /** `origin` names, for every row ever committed, the issued row its chain starts at. */
  datatype World = World(
    table: Table,
    now: int,
    flights: seq<Flight>,
    grants: seq<Grant>,
    swaps: seq<Swap>,
    origin: map<nat, nat>)

  datatype Step =
    | BeginIssue(owner: Owner, minted: string)
    | BeginRotate(token: string)
    | BeginLogout(token: string)
    | Advance(flight: nat, minted: string)
    | RevokeAllFor(owner: Owner)
    | Prune
    | Wait(until: int)

  // ---------- Steps ----------

  function WithRows(w: World, rows: map<nat, Row>): World {
    w.(table := Table(rows, w.table.nextId))
  }

  function WithFlight(w: World, i: nat, f: Flight): World
    requires i < |w.flights|
  {
    w.(flights := w.flights[i := f])
  }

  /** An id is used up and nothing stays of the insert. */
  function Skipped(w: World): World {
    w.(table := Table(w.table.rows, w.table.nextId + 1))
  }

  function Added(w: World, row: Row): World {
    var id := w.table.nextId;
    World(Table(w.table.rows[id := row], id + 1), w.now, w.flights, w.grants + [Grant(id, row.owner)], w.swaps, w.origin[id := id])
  }

  ghost function Granted(w: World, row: Row): World {
    if Taken(w.table.rows, row.hash) then Skipped(w) else Added(w, row)
  }

  function Exchanged(w: World, table: Table, used: nat, row: Row): World {
    var id := w.table.nextId;
    var origin := if used in w.origin then w.origin[used] else used;
    World(table, w.now, w.flights, w.grants, w.swaps + [Swap(used, id, row.owner)], w.origin[id := origin])
  }

  ghost function Swapped(w: World, used: nat, row: Row, at: int): World {
    var (table, done) := Exchange(w.table, used, row, at);
    if done then Exchanged(w, table, used, row) else Skipped(w)
  }

  /** What a rotation does once its lookup has returned. */
  function Decided(ttl: nat, f: Flight, minted: string, now: int): Flight
    requires f.Looked?
  {
    match Judge(f.row, now)
    case Reuse => Burning(f.row.owner, now)
    case Reject => Done
    case Accept => Exchanging(f.id, f.row, Digest(minted), Expiry(ttl, now), now)
  }

  ghost function AdvanceFlight(ttl: nat, w: World, i: nat, minted: string): World
    requires i < |w.flights|
  {
    match w.flights[i]
    case Minting(owner, hash, expiresAt) => WithFlight(Granted(w, NewRow(hash, owner, expiresAt)), i, Done)
    case Looked(_, _) => WithFlight(w, i, Decided(ttl, w.flights[i], minted, w.now))
    case Burning(owner, at) => WithFlight(WithRows(w, RevokeAll(w.table.rows, owner, at)), i, Done)
    case Exchanging(id, row, hash, expiresAt, at) => WithFlight(Swapped(w, id, NewRow(hash, row.owner, expiresAt), at), i, Done)
    case LoggingOut(id) => WithFlight(WithRows(w, RevokeOne(w.table.rows, id, w.now)), i, Done)
    case Done => w
  }

  ghost function Begun(w: World, token: string, logout: bool): World {
    match Find(w.table.rows, Digest(token))
    case None => w
    case Some(id) =>
      var row := w.table.rows[id];
      if !logout then (if token == "" then w else w.(flights := w.flights + [Looked(id, row)]))
      else if row.revokedAt.Some? then w
      else w.(flights := w.flights + [LoggingOut(id)])
  }

  ghost function Apply(ttl: nat, w: World, step: Step): World {
    match step
    case BeginIssue(owner, minted) => w.(flights := w.flights + [Minting(owner, Digest(minted), Expiry(ttl, w.now))])
    case BeginRotate(token) => Begun(w, token, false)
    case BeginLogout(token) => Begun(w, token, true)
    case Advance(i, minted) => if i < |w.flights| then AdvanceFlight(ttl, w, i, minted) else w
    case RevokeAllFor(owner) => WithRows(w, RevokeAll(w.table.rows, owner, w.now))
    case Prune => WithRows(w, DeleteExpired(w.table.rows, w.now))
    case Wait(until) => if until >= w.now then w.(now := until) else w
  }

  ghost function Continue(ttl: nat, w: World, steps: seq<Step>): World {
    if steps == [] then w else Apply(ttl, Continue(ttl, w, steps[..|steps| - 1]), steps[|steps| - 1])
  }

  function Start(now: int): World {
    World(EMPTY, now, [], [], [], map[])
  }

  // ---------- Invariant ----------

  ghost predicate RowsSound(ttl: nat, t: Table, now: int) {
    Sound(t) && forall id :: id in t.rows ==> t.rows[id].expiresAt <= Expiry(ttl, now)
  }

  /** A replaced row is revoked, and its successor is there, younger, and expires no earlier. */
  ghost predicate ChainsSound(rows: map<nat, Row>) {
    forall id :: id in rows && rows[id].replacedBy.Some? ==>
      var next := rows[id].replacedBy.value;
      rows[id].revokedAt.Some? && id < next && next in rows
      && rows[next].owner == rows[id].owner && rows[id].expiresAt <= rows[next].expiresAt
  }

  /** What a request read still describes its row, if the row is there. */
  ghost predicate Faithful(ttl: nat, t: Table, now: int, f: Flight) {
    match f
    case Minting(_, _, expiresAt) => expiresAt <= Expiry(ttl, now)
    case Looked(id, row) => Describes(ttl, t, now, id, row)
    case Exchanging(id, row, _, expiresAt, _) => Describes(ttl, t, now, id, row) && row.expiresAt <= expiresAt <= Expiry(ttl, now)
    case _ => true
  }

  ghost predicate Describes(ttl: nat, t: Table, now: int, id: nat, row: Row) {
    && id < t.nextId && row.expiresAt <= Expiry(ttl, now)
    && (id in t.rows ==> t.rows[id].owner == row.owner && t.rows[id].expiresAt == row.expiresAt)
  }

  ghost predicate FlightsSound(ttl: nat, t: Table, now: int, flights: seq<Flight>) {
    forall f :: f in flights ==> Faithful(ttl, t, now, f)
  }

  /** Every row goes back to an issue of its owner. */
  ghost predicate Rooted(t: Table, grants: seq<Grant>, origin: map<nat, nat>) {
    && (forall id :: id in t.rows ==> id in origin && origin[id] <= id && Grant(origin[id], t.rows[id].owner) in grants)
    && (forall id :: id in origin ==> id < t.nextId)
  }

  /** No two unrevoked rows go back to the same issue. */
  ghost predicate OneLiveEach(rows: map<nat, Row>, origin: map<nat, nat>)
    requires forall id :: id in rows ==> id in origin
  {
    forall i, j :: i in rows && j in rows && i != j && rows[i].revokedAt.None? && rows[j].revokedAt.None? ==> origin[i] != origin[j]
  }

  ghost predicate OriginsSound(t: Table, grants: seq<Grant>, origin: map<nat, nat>) {
    Rooted(t, grants, origin) && OneLiveEach(t.rows, origin)
  }

  /** The rotations of the history and the links in the table are the same. */
  ghost predicate SwapsSound(t: Table, swaps: seq<Swap>) {
    && (forall i, j :: 0 <= i < j < |swaps| ==> swaps[i].from != swaps[j].from && swaps[i].to != swaps[j].to)
    && (forall s :: s in swaps ==> s.from < s.to < t.nextId)
    && (forall s :: s in swaps && s.from in t.rows ==> t.rows[s.from].replacedBy == Some(s.to) && t.rows[s.from].revokedAt.Some?)
    && (forall id :: id in t.rows && t.rows[id].replacedBy.Some? ==> Swap(id, t.rows[id].replacedBy.value, t.rows[id].owner) in swaps)
  }

  ghost predicate Invariant(ttl: nat, w: World) {
    && RowsSound(ttl, w.table, w.now)
    && ChainsSound(w.table.rows)
    && FlightsSound(ttl, w.table, w.now, w.flights)
    && OriginsSound(w.table, w.grants, w.origin)
    && SwapsSound(w.table, w.swaps)
  }

  // ---------- Revoking and deleting ----------

  /** Rows may go or be revoked; nothing else changes. */
  ghost predicate Weakens(out: map<nat, Row>, rows: map<nat, Row>) {
    forall id :: id in out ==>
      && id in rows && out[id].hash == rows[id].hash && out[id].owner == rows[id].owner
      && out[id].expiresAt == rows[id].expiresAt && out[id].replacedBy == rows[id].replacedBy
      && (rows[id].revokedAt.Some? ==> out[id].revokedAt.Some?)
  }

  lemma WeakenKeepsRows(ttl: nat, t: Table, out: map<nat, Row>, now: int, flights: seq<Flight>)
    requires RowsSound(ttl, t, now) && FlightsSound(ttl, t, now, flights) && Weakens(out, t.rows)
    ensures RowsSound(ttl, Table(out, t.nextId), now) && FlightsSound(ttl, Table(out, t.nextId), now, flights)
  {
    forall f | f in flights
      ensures Faithful(ttl, Table(out, t.nextId), now, f)
    {
      assert Faithful(ttl, t, now, f);
    }
  }

  lemma WeakenKeepsHistory(t: Table, out: map<nat, Row>, grants: seq<Grant>, swaps: seq<Swap>, origin: map<nat, nat>)
    requires OriginsSound(t, grants, origin) && SwapsSound(t, swaps) && Weakens(out, t.rows)
    ensures OriginsSound(Table(out, t.nextId), grants, origin) && SwapsSound(Table(out, t.nextId), swaps)
  {
  }

  lemma WeakenKeepsInvariant(ttl: nat, w: World, out: map<nat, Row>)
    requires Invariant(ttl, w) && Weakens(out, w.table.rows) && ChainsSound(out)
    ensures Invariant(ttl, WithRows(w, out))
  {
    WeakenKeepsRows(ttl, w.table, out, w.now, w.flights);
    WeakenKeepsHistory(w.table, out, w.grants, w.swaps, w.origin);
  }

  lemma RevokeKeepsInvariant(ttl: nat, w: World, out: map<nat, Row>)
    requires Invariant(ttl, w) && Weakens(out, w.table.rows) && out.Keys == w.table.rows.Keys
    ensures Invariant(ttl, WithRows(w, out))
  {
    assert forall id :: id in w.table.rows ==> id in out;
    WeakenKeepsInvariant(ttl, w, out);
  }

  lemma RevokeAllWeakens(rows: map<nat, Row>, owner: Owner, at: int)
    ensures Weakens(RevokeAll(rows, owner, at), rows) && RevokeAll(rows, owner, at).Keys == rows.Keys
  {
  }

  lemma RevokeOneWeakens(rows: map<nat, Row>, id: nat, at: int)
    ensures Weakens(RevokeOne(rows, id, at), rows) && RevokeOne(rows, id, at).Keys == rows.Keys
  {
  }

  /** A successor expires no earlier than the row it replaces, so it outlives it in the table. */
  lemma PruneKeepsInvariant(ttl: nat, w: World)
    requires Invariant(ttl, w)
    ensures Invariant(ttl, WithRows(w, DeleteExpired(w.table.rows, w.now)))
  {
    WeakenKeepsInvariant(ttl, w, DeleteExpired(w.table.rows, w.now));
  }

  // ---------- Issuing ----------

  lemma GrantKeepsRows(ttl: nat, t: Table, row: Row, now: int, flights: seq<Flight>)
    requires RowsSound(ttl, t, now) && ChainsSound(t.rows) && FlightsSound(ttl, t, now, flights)
    requires !Taken(t.rows, row.hash) && row.expiresAt <= Expiry(ttl, now) && row.replacedBy.None?
    ensures RowsSound(ttl, Table(t.rows[t.nextId := row], t.nextId + 1), now)
    ensures ChainsSound(t.rows[t.nextId := row])
    ensures FlightsSound(ttl, Table(t.rows[t.nextId := row], t.nextId + 1), now, flights)
  {
    forall f | f in flights
      ensures Faithful(ttl, Table(t.rows[t.nextId := row], t.nextId + 1), now, f)
    {
      assert Faithful(ttl, t, now, f);
    }
  }

  lemma GrantKeepsHistory(ttl: nat, t: Table, row: Row, now: int, grants: seq<Grant>, swaps: seq<Swap>, origin: map<nat, nat>)
    requires RowsSound(ttl, t, now) && OriginsSound(t, grants, origin) && SwapsSound(t, swaps) && row.replacedBy.None?
    ensures OriginsSound(Table(t.rows[t.nextId := row], t.nextId + 1), grants + [Grant(t.nextId, row.owner)], origin[t.nextId := t.nextId])
    ensures SwapsSound(Table(t.rows[t.nextId := row], t.nextId + 1), swaps)
  {
  }

  /** An id may be used up without a row. */
  lemma SkipKeepsInvariant(ttl: nat, w: World)
    requires Invariant(ttl, w)
    ensures Invariant(ttl, Skipped(w))
  {
    forall f | f in w.flights
      ensures Faithful(ttl, Table(w.table.rows, w.table.nextId + 1), w.now, f)
    {
      assert Faithful(ttl, w.table, w.now, f);
    }
  }

  lemma AddKeepsInvariant(ttl: nat, w: World, row: Row)
    requires Invariant(ttl, w) && row.expiresAt <= Expiry(ttl, w.now) && row.replacedBy.None? && !Taken(w.table.rows, row.hash)
    ensures Invariant(ttl, Added(w, row))
  {
    GrantKeepsRows(ttl, w.table, row, w.now, w.flights);
    GrantKeepsHistory(ttl, w.table, row, w.now, w.grants, w.swaps, w.origin);
  }

  lemma GrantKeepsInvariant(ttl: nat, w: World, row: Row)
    requires Invariant(ttl, w) && row.expiresAt <= Expiry(ttl, w.now) && row.replacedBy.None?
    ensures Invariant(ttl, Granted(w, row))
  {
    if Taken(w.table.rows, row.hash) {
      SkipKeepsInvariant(ttl, w);
    } else {
      AddKeepsInvariant(ttl, w, row);
    }
  }

  // ---------- Exchanging ----------

  function AfterExchange(t: Table, used: nat, row: Row, at: int): map<nat, Row>
    requires used in t.rows
  {
    t.rows[t.nextId := row][used := Replaced(t.rows[used], t.nextId, at)]
  }

  lemma ExchangeKeepsRows(ttl: nat, t: Table, used: nat, row: Row, at: int, now: int)
    requires RowsSound(ttl, t, now) && used in t.rows && !Taken(t.rows, row.hash) && row.expiresAt <= Expiry(ttl, now)
    ensures RowsSound(ttl, Table(AfterExchange(t, used, row, at), t.nextId + 1), now)
  {
    assert forall id :: id in AfterExchange(t, used, row, at) ==> id == t.nextId || id in t.rows;
  }

  lemma ExchangeKeepsChains(t: Table, used: nat, row: Row, at: int)
    requires Sound(t) && ChainsSound(t.rows) && used in t.rows && row.replacedBy.None?
    requires row.owner == t.rows[used].owner && t.rows[used].expiresAt <= row.expiresAt
    ensures ChainsSound(AfterExchange(t, used, row, at))
  {
  }

  lemma ExchangeKeepsFlights(ttl: nat, t: Table, used: nat, row: Row, at: int, now: int, flights: seq<Flight>)
    requires RowsSound(ttl, t, now) && FlightsSound(ttl, t, now, flights) && used in t.rows
    ensures FlightsSound(ttl, Table(AfterExchange(t, used, row, at), t.nextId + 1), now, flights)
  {
    forall f | f in flights
      ensures Faithful(ttl, Table(AfterExchange(t, used, row, at), t.nextId + 1), now, f)
    {
      assert Faithful(ttl, t, now, f);
    }
  }

  lemma ExchangeKeepsOrigins(ttl: nat, t: Table, used: nat, row: Row, at: int, now: int, grants: seq<Grant>, origin: map<nat, nat>)
    requires RowsSound(ttl, t, now) && OriginsSound(t, grants, origin)
    requires used in t.rows && t.rows[used].revokedAt.None? && row.owner == t.rows[used].owner
    ensures OriginsSound(Table(AfterExchange(t, used, row, at), t.nextId + 1), grants, origin[t.nextId := origin[used]])
  {
    ExchangeKeepsRoots(t, used, row, at, grants, origin);
  }

  lemma ExchangeKeepsRoots(t: Table, used: nat, row: Row, at: int, grants: seq<Grant>, origin: map<nat, nat>)
    requires Sound(t) && Rooted(t, grants, origin) && used in t.rows && row.owner == t.rows[used].owner
    ensures Rooted(Table(AfterExchange(t, used, row, at), t.nextId + 1), grants, origin[t.nextId := origin[used]])
  {
  }

  lemma ExchangeKeepsSwaps(ttl: nat, t: Table, used: nat, row: Row, at: int, now: int, swaps: seq<Swap>)
    requires RowsSound(ttl, t, now) && SwapsSound(t, swaps)
    requires used in t.rows && t.rows[used].revokedAt.None? && row.owner == t.rows[used].owner && row.replacedBy.None?
    ensures SwapsSound(Table(AfterExchange(t, used, row, at), t.nextId + 1), swaps + [Swap(used, t.nextId, row.owner)])
  {
    forall s | s in swaps
      ensures s.from != used && s.to != t.nextId
    {
    }
  }

  /** The old row can be exchanged for the new one. */
  ghost predicate Exchangeable(ttl: nat, t: Table, used: nat, row: Row, now: int) {
    && used in t.rows && t.rows[used].revokedAt.None? && row.replacedBy.None? && !Taken(t.rows, row.hash)
    && row.owner == t.rows[used].owner && t.rows[used].expiresAt <= row.expiresAt <= Expiry(ttl, now)
  }

  lemma ExchangeKeepsTable(ttl: nat, t: Table, used: nat, row: Row, at: int, now: int, flights: seq<Flight>, out: Table)
    requires RowsSound(ttl, t, now) && ChainsSound(t.rows) && FlightsSound(ttl, t, now, flights)
    requires Exchangeable(ttl, t, used, row, now) && out == Table(AfterExchange(t, used, row, at), t.nextId + 1)
    ensures RowsSound(ttl, out, now) && ChainsSound(out.rows) && FlightsSound(ttl, out, now, flights)
  {
    ExchangeKeepsRows(ttl, t, used, row, at, now);
    ExchangeKeepsChains(t, used, row, at);
    ExchangeKeepsFlights(ttl, t, used, row, at, now, flights);
  }

  lemma ExchangeKeepsHistory(ttl: nat, w: World, used: nat, row: Row, at: int, out: Table)
    requires RowsSound(ttl, w.table, w.now) && OriginsSound(w.table, w.grants, w.origin) && SwapsSound(w.table, w.swaps)
    requires Exchangeable(ttl, w.table, used, row, w.now) && out == Table(AfterExchange(w.table, used, row, at), w.table.nextId + 1)
    ensures OriginsSound(out, w.grants, Exchanged(w, out, used, row).origin)
    ensures SwapsSound(out, Exchanged(w, out, used, row).swaps)
  {
    ExchangeKeepsOrigins(ttl, w.table, used, row, at, w.now, w.grants, w.origin);
    ExchangeKeepsSwaps(ttl, w.table, used, row, at, w.now, w.swaps);
  }

  lemma ExchangeKeepsInvariant(ttl: nat, w: World, used: nat, row: Row, at: int, out: Table)
    requires Invariant(ttl, w)
    requires Exchangeable(ttl, w.table, used, row, w.now) && out == Table(AfterExchange(w.table, used, row, at), w.table.nextId + 1)
    ensures Invariant(ttl, Exchanged(w, out, used, row))
  {
    ExchangeKeepsTable(ttl, w.table, used, row, at, w.now, w.flights, out);
    ExchangeKeepsHistory(ttl, w, used, row, at, out);
  }

  lemma SwapKeepsInvariant(ttl: nat, w: World, used: nat, row: Row, at: int)
    requires Invariant(ttl, w) && row.replacedBy.None?
    requires used in w.table.rows ==> row.owner == w.table.rows[used].owner && w.table.rows[used].expiresAt <= row.expiresAt
    requires row.expiresAt <= Expiry(ttl, w.now)
    ensures Invariant(ttl, Swapped(w, used, row, at))
  {
    var (out, done) := Exchange(w.table, used, row, at);
    if done {
      ExchangeKeepsInvariant(ttl, w, used, row, at, out);
    } else {
      SkipKeepsInvariant(ttl, w);
    }
  }

  // ---------- Every run ----------

  lemma FlightKeepsInvariant(ttl: nat, w: World, i: nat, f: Flight)
    requires Invariant(ttl, w) && i < |w.flights| && Faithful(ttl, w.table, w.now, f)
    ensures Invariant(ttl, WithFlight(w, i, f))
  {
    forall g | g in w.flights[i := f]
      ensures Faithful(ttl, w.table, w.now, g)
    {
      assert g == f || g in w.flights;
    }
  }

  lemma BeginKeepsInvariant(ttl: nat, w: World, f: Flight)
    requires Invariant(ttl, w) && Faithful(ttl, w.table, w.now, f)
    ensures Invariant(ttl, w.(flights := w.flights + [f]))
  {
  }

  lemma BegunKeepsInvariant(ttl: nat, w: World, token: string, logout: bool)
    requires Invariant(ttl, w)
    ensures Invariant(ttl, Begun(w, token, logout))
  {
    var found := Find(w.table.rows, Digest(token));
    if found.Some? {
      BeginKeepsInvariant(ttl, w, if logout then LoggingOut(found.value) else Looked(found.value, w.table.rows[found.value]));
    }
  }

  lemma RevokingAdvances(ttl: nat, w: World, i: nat, out: map<nat, Row>)
    requires Invariant(ttl, w) && i < |w.flights|
    requires Weakens(out, w.table.rows) && out.Keys == w.table.rows.Keys
    ensures Invariant(ttl, WithFlight(WithRows(w, out), i, Done))
  {
    RevokeKeepsInvariant(ttl, w, out);
    FlightKeepsInvariant(ttl, WithRows(w, out), i, Done);
  }

  lemma ExchangingAdvances(ttl: nat, w: World, i: nat, minted: string)
    requires Invariant(ttl, w) && i < |w.flights| && w.flights[i].Exchanging?
    ensures Invariant(ttl, AdvanceFlight(ttl, w, i, minted))
  {
    var f := w.flights[i];
    assert Faithful(ttl, w.table, w.now, f);
    var row := NewRow(f.hash, f.row.owner, f.expiresAt);
    SwapKeepsInvariant(ttl, w, f.id, row, f.at);
    FlightKeepsInvariant(ttl, Swapped(w, f.id, row, f.at), i, Done);
  }

  lemma AdvanceKeepsInvariant(ttl: nat, w: World, i: nat, minted: string)
    requires Invariant(ttl, w) && i < |w.flights|
    ensures Invariant(ttl, AdvanceFlight(ttl, w, i, minted))
  {
    var f := w.flights[i];
    assert Faithful(ttl, w.table, w.now, f);
    match f {
      case Minting(owner, hash, expiresAt) =>
        GrantKeepsInvariant(ttl, w, NewRow(hash, owner, expiresAt));
        FlightKeepsInvariant(ttl, Granted(w, NewRow(hash, owner, expiresAt)), i, Done);
      case Looked(_, _) =>
        FlightKeepsInvariant(ttl, w, i, Decided(ttl, f, minted, w.now));
      case Burning(owner, at) =>
        RevokeAllWeakens(w.table.rows, owner, at);
        RevokingAdvances(ttl, w, i, RevokeAll(w.table.rows, owner, at));
      case Exchanging(_, _, _, _, _) => ExchangingAdvances(ttl, w, i, minted);
      case LoggingOut(id) =>
        RevokeOneWeakens(w.table.rows, id, w.now);
        RevokingAdvances(ttl, w, i, RevokeOne(w.table.rows, id, w.now));
      case Done =>
    }
  }

  lemma WaitKeepsInvariant(ttl: nat, w: World, until: int)
    requires Invariant(ttl, w) && until >= w.now
    ensures Invariant(ttl, w.(now := until))
  {
    forall f | f in w.flights
      ensures Faithful(ttl, w.table, until, f)
    {
      assert Faithful(ttl, w.table, w.now, f);
    }
  }

  lemma RevokeAllKeepsInvariant(ttl: nat, w: World, owner: Owner)
    requires Invariant(ttl, w)
    ensures Invariant(ttl, WithRows(w, RevokeAll(w.table.rows, owner, w.now)))
  {
    RevokeAllWeakens(w.table.rows, owner, w.now);
    RevokeKeepsInvariant(ttl, w, RevokeAll(w.table.rows, owner, w.now));
  }

  lemma IssueKeepsInvariant(ttl: nat, w: World, owner: Owner, minted: string)
    requires Invariant(ttl, w)
    ensures Invariant(ttl, w.(flights := w.flights + [Minting(owner, Digest(minted), Expiry(ttl, w.now))]))
  {
    BeginKeepsInvariant(ttl, w, Minting(owner, Digest(minted), Expiry(ttl, w.now)));
  }

  lemma StepKeepsInvariant(ttl: nat, w: World, step: Step)
    requires Invariant(ttl, w)
    ensures Invariant(ttl, Apply(ttl, w, step))
  {
    match step {
      case BeginIssue(owner, minted) => IssueKeepsInvariant(ttl, w, owner, minted);
      case BeginRotate(token) => BegunKeepsInvariant(ttl, w, token, false);
      case BeginLogout(token) => BegunKeepsInvariant(ttl, w, token, true);
      case Advance(i, minted) =>
        if i < |w.flights| {
          AdvanceKeepsInvariant(ttl, w, i, minted);
        }
      case RevokeAllFor(owner) => RevokeAllKeepsInvariant(ttl, w, owner);
      case Prune => PruneKeepsInvariant(ttl, w);
      case Wait(until) =>
        if until >= w.now {
          WaitKeepsInvariant(ttl, w, until);
        }
    }
  }

  lemma {:induction false} RunKeepsInvariant(ttl: nat, start: int, steps: seq<Step>)
    ensures Invariant(ttl, Continue(ttl, Start(start), steps))
  {
    if steps != [] {
      RunKeepsInvariant(ttl, start, steps[..|steps| - 1]);
      StepKeepsInvariant(ttl, Continue(ttl, Start(start), steps[..|steps| - 1]), steps[|steps| - 1]);
    }
  }
}
