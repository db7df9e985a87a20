/** The authentication cache over whole runs: it is never seen. */
module AuthRuns {
  import opened Options
  import opened AuthCache
  import opened AuthScreening

  datatype Timed = Timed(call: Call, at: int)

  ghost function Run(w: World, calls: seq<Timed>): World {
    if calls == [] then w
    else
      var last := calls[|calls| - 1];
      Apply(Run(w, calls[..|calls| - 1]), last.call, last.at).0
  }

  /** The outcome of call `n`. */
  ghost function OutcomeOf(w: World, calls: seq<Timed>, n: nat): Outcome
    requires n < |calls|
  {
    Apply(Run(w, calls[..n]), calls[n].call, calls[n].at).1
  }

  // ---------- Cached principals are the rows ----------

  /** Every entry, expired or not, is the account's present row. */
  ghost predicate Coherent(rows: map<AccountId, Account>, driver: Driver) {
    driver.Redis? ==> forall a :: a in driver.entries ==> a in rows && driver.entries[a].value == rows[a]
  }

  ghost predicate Invariant(w: World) {
    Sound(w.db) && Coherent(w.db.rows, w.driver)
  }

  lemma NoOwner(rows: map<AccountId, Account>, phone: string)
    requires PhoneOwner(rows, phone).None?
    ensures forall a :: !HasPhone(rows, a, phone)
  {
  }

  /** An insert needs no invalidation: nothing is cached for an account that is not there. */
  lemma CreateKeepsInvariant(w: World, account: Account)
    requires Invariant(w) && account.UserAccount? && PhoneOwner(w.db.rows, account.phone).None?
    ensures Invariant(Written(w, Create(account)).0)
  {
    NoOwner(w.db.rows, account.phone);
    var id := AccountId(User, w.db.nextUser);
    var rows := w.db.rows[id := account];
    forall a, phone | HasPhone(rows, a, phone)
      ensures if a == id then phone == account.phone else HasPhone(w.db.rows, a, phone)
    {
    }
  }

  /** An update that keeps the phone, followed by its invalidation. */
  lemma UpdateKeepsInvariant(w: World, id: AccountId, account: Account, revoked: bool, password: Option<string>)
    requires Invariant(w) && id in w.db.rows
    requires id.role == User && account.UserAccount? ==> w.db.rows[id].UserAccount? && w.db.rows[id].phone == account.phone
    ensures Invariant(Written(w, Update(id, account, revoked, password)).0)
  {
    var rows := w.db.rows[id := account];
    forall a, phone | HasPhone(rows, a, phone)
      ensures HasPhone(w.db.rows, a, phone)
    {
    }
  }

  /** Every write is an insert of a new phone, or an update that keeps the row's phone. */
  lemma EffectShape(db: Db, call: Call)
    ensures var e := EffectOf(db, call);
            && (e.Update? ==> e.id in db.rows && (e.id.role == User && e.account.UserAccount? ==>
                                                    db.rows[e.id].UserAccount? && db.rows[e.id].phone == e.account.phone))
            && (e.Create? ==> e.account.UserAccount? && PhoneOwner(db.rows, e.account.phone).None?)
  {
  }

  lemma GuardKeepsInvariant(w: World, request: HttpRequest, now: int)
    requires Invariant(w)
    ensures Invariant(Guarded(w, request, now).0)
  {
  }

  lemma CallKeepsInvariant(w: World, call: Call, now: int)
    requires Invariant(w)
    ensures Invariant(Apply(w, call, now).0)
  {
    if call.Authenticate? {
      GuardKeepsInvariant(w, call.request, now);
    } else {
      EffectShape(w.db, call);
      match EffectOf(w.db, call) {
        case NoWrite(_) =>
        case Update(id, account, revoked, password) => UpdateKeepsInvariant(w, id, account, revoked, password);
        case Create(account) => CreateKeepsInvariant(w, account);
      }
    }
  }

  lemma {:induction false} RunKeepsInvariant(w: World, calls: seq<Timed>)
    requires Invariant(w)
    ensures Invariant(Run(w, calls))
  {
    if calls != [] {
      var n := |calls| - 1;
      RunKeepsInvariant(w, calls[..n]);
      CallKeepsInvariant(Run(w, calls[..n]), calls[n].call, calls[n].at);
    }
  }

  // ---------- With and without a cache ----------

  /** What the guard answers when it always reads the row. */
  function Uncached(rows: map<AccountId, Account>, request: HttpRequest): Outcome {
    match Screen(request)
    case Stopped(verdict) => Judged(verdict)
    case Asks(a) => Judged(AuthCache.Judge(Lookup(rows, a)))
  }

  lemma GuardReadsTheRow(w: World, request: HttpRequest, now: int)
    requires Coherent(w.db.rows, w.driver)
    ensures Guarded(w, request, now).1 == Uncached(w.db.rows, request) && Guarded(w, request, now).0.db == w.db
  {
  }

  /**
   * The guard's answer, spelled out over any coherent cache. A request is admitted only with a
   * bearer token that verifies, a known role that the route allows, and the active row of that
   * role and id, which becomes the principal; each refusal has its own condition.
   */
  lemma GuardAnswers(w: World, request: HttpRequest, now: int)
    requires Coherent(w.db.rows, w.driver)
    ensures Guarded(w, request, now).1 == Judged(
              if request.isPublic then Public
              else if !BearsToken(request.authorization) then MissingToken
              else if !KnownRole(request.claims) then InvalidToken
              else
                var a := Claimed(request.claims.value);
                if !Allows(request.required, a.role) then ForbiddenRole
                else if a !in w.db.rows then AccountNotFound
                else if !w.db.rows[a].isActive then AccountDisabled
                else Admitted(w.db.rows[a]))
  {
    GuardReadsTheRow(w, request, now);
    ScreenAnswers(request);
  }

  /** The same as one condition: who is admitted, and as whom. */
  lemma AdmittedIff(w: World, request: HttpRequest, now: int, principal: Account)
    requires Coherent(w.db.rows, w.driver)
    ensures Guarded(w, request, now).1 == Judged(Admitted(principal)) <==>
              && !request.isPublic
              && BearsToken(request.authorization)
              && request.claims.Some?
              && ((request.claims.value.role == "admin" && (request.required == [] || Admin in request.required))
                  || (request.claims.value.role == "user" && (request.required == [] || User in request.required)))
              && var a := AccountId(if request.claims.value.role == "admin" then Admin else User, request.claims.value.userId);
                 a in w.db.rows && w.db.rows[a] == principal && principal.isActive
  {
    GuardAnswers(w, request, now);
  }

  lemma CallIgnoresCache(w: World, v: World, call: Call, now: int)
    requires Invariant(w) && Invariant(v) && w.db == v.db
    ensures Apply(w, call, now).1 == Apply(v, call, now).1 && Apply(w, call, now).0.db == Apply(v, call, now).0.db
  {
    if call.Authenticate? {
      GuardReadsTheRow(w, call.request, now);
      GuardReadsTheRow(v, call.request, now);
    }
  }

  lemma {:induction false} SameDatabase(w: World, v: World, calls: seq<Timed>)
    requires Invariant(w) && Invariant(v) && w.db == v.db
    ensures Run(w, calls).db == Run(v, calls).db
  {
    if calls != [] {
      var n := |calls| - 1;
      SameDatabase(w, v, calls[..n]);
      RunKeepsInvariant(w, calls[..n]);
      RunKeepsInvariant(v, calls[..n]);
      CallIgnoresCache(Run(w, calls[..n]), Run(v, calls[..n]), calls[n].call, calls[n].at);
    }
  }

  /**
   * From any database, every call of every run has the same outcome under the caching driver
   * as under the one that caches nothing, whatever the times of the calls.
   */
  lemma CacheIsInvisible(db: Db, calls: seq<Timed>, n: nat)
    requires Sound(db) && n < |calls|
    ensures OutcomeOf(World(db, Redis(map[])), calls, n) == OutcomeOf(World(db, Noop), calls, n)
  {
    var w, v := World(db, Redis(map[])), World(db, Noop);
    SameDatabase(w, v, calls[..n]);
    RunKeepsInvariant(w, calls[..n]);
    RunKeepsInvariant(v, calls[..n]);
    CallIgnoresCache(Run(w, calls[..n]), Run(v, calls[..n]), calls[n].call, calls[n].at);
  }

  // ---------- Deactivated accounts ----------

  ghost predicate HasActivity(db: Db, user: nat, active: bool) {
    UserRow(db, user).Some? && UserRow(db, user).value.isActive == active
  }

  /** The calls that set the gate of a user. */
  predicate Gates(call: Call, user: nat) {
    (call.Deactivate? || call.Activate?) && call.user == user
  }

  lemma WriteKeepsActivity(db: Db, call: Call, user: nat, active: bool)
    requires Sound(db) && HasActivity(db, user, active) && !Gates(call, user)
    ensures HasActivity(Written(World(db, Noop), EffectOf(db, call)).0.db, user, active)
  {
  }

  lemma DatabaseOfWrite(w: World, call: Call, now: int)
    requires Invariant(w)
    ensures !call.Authenticate? ==> Apply(w, call, now).0.db == Written(World(w.db, Noop), EffectOf(w.db, call)).0.db
    ensures call.Authenticate? ==> Apply(w, call, now).0.db == w.db
  {
  }

  lemma {:induction false} ActivityStays(w: World, calls: seq<Timed>, user: nat, active: bool)
    requires Invariant(w) && HasActivity(w.db, user, active)
    requires forall i :: 0 <= i < |calls| ==> !Gates(calls[i].call, user)
    ensures HasActivity(Run(w, calls).db, user, active)
  {
    if calls != [] {
      var n := |calls| - 1;
      var v := Run(w, calls[..n]);
      ActivityStays(w, calls[..n], user, active);
      RunKeepsInvariant(w, calls[..n]);
      DatabaseOfWrite(v, calls[n].call, calls[n].at);
      if !calls[n].call.Authenticate? {
        WriteKeepsActivity(v.db, calls[n].call, user, active);
      }
    }
  }

  lemma ActivityJudged(w: World, request: HttpRequest, now: int, user: nat, active: bool)
    requires Invariant(w) && HasActivity(w.db, user, active) && Carries(request, AccountId(User, user))
    ensures active ==> Guarded(w, request, now).1.Judged? && Guarded(w, request, now).1.verdict.Admitted?
    ensures !active ==> Guarded(w, request, now).1 == Judged(AccountDisabled)
  {
    CarriesIffAsks(request, AccountId(User, user));
    GuardReadsTheRow(w, request, now);
  }

  lemma GateSets(w: World, user: nat, now: int)
    requires Invariant(w) && UserRow(w.db, user).Some?
    ensures HasActivity(Apply(w, Deactivate(user), now).0.db, user, false)
    ensures HasActivity(Apply(w, Activate(user), now).0.db, user, true)
  {
  }

  /**
   * From the deactivation of a user until the next activation, under either driver, every
   * request with that user's token is rejected as disabled.
   */
  lemma DeactivationHolds(w: World, at: int, calls: seq<Timed>, user: nat, request: HttpRequest, now: int)
    requires Invariant(w) && UserRow(w.db, user).Some? && Carries(request, AccountId(User, user))
    requires forall i :: 0 <= i < |calls| ==> !Gates(calls[i].call, user)
    ensures Guarded(Run(Apply(w, Deactivate(user), at).0, calls), request, now).1 == Judged(AccountDisabled)
  {
    var v := Apply(w, Deactivate(user), at).0;
    GateSets(w, user, at);
    CallKeepsInvariant(w, Deactivate(user), at);
    ActivityStays(v, calls, user, false);
    RunKeepsInvariant(v, calls);
    ActivityJudged(Run(v, calls), request, now, user, false);
  }

  /** And from an activation until the next deactivation every such request is admitted. */
  lemma ActivationHolds(w: World, at: int, calls: seq<Timed>, user: nat, request: HttpRequest, now: int)
    requires Invariant(w) && UserRow(w.db, user).Some? && Carries(request, AccountId(User, user))
    requires forall i :: 0 <= i < |calls| ==> !Gates(calls[i].call, user)
    ensures var outcome := Guarded(Run(Apply(w, Activate(user), at).0, calls), request, now).1;
            outcome.Judged? && outcome.verdict.Admitted?
  {
    var v := Apply(w, Activate(user), at).0;
    GateSets(w, user, at);
    CallKeepsInvariant(w, Activate(user), at);
    ActivityStays(v, calls, user, true);
    RunKeepsInvariant(v, calls);
    ActivityJudged(Run(v, calls), request, now, user, true);
  }
}
