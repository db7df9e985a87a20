/**
 * The cached auth principal: the cache service, the guard that reads through it, and every
 * service call that writes an account row. Each call is atomic.
 */
module AuthCache {
  import opened Options
  import opened Text

  datatype Role = Admin | User

  datatype AccountId = AccountId(role: Role, id: nat)

  /** Nullable text columns by name; a change lists only the columns it sets. */
  type Profile = map<string, Option<string>>

  /** The plain fields of a principal; an admin's password is never selected for it. */
  datatype Account =
    | UserAccount(isActive: bool, phone: string, isProfileCompleted: bool, photoKey: Option<string>, profile: Profile)
    | AdminAccount(isActive: bool, username: string, photoKey: Option<string>, profile: Profile)

  function WithPhoto(a: Account, key: string): Account {
    match a
    case UserAccount(active, phone, completed, _, profile) => UserAccount(active, phone, completed, Some(key), profile)
    case AdminAccount(active, username, _, profile) => AdminAccount(active, username, Some(key), profile)
  }

  function Merged(a: Account, dto: Profile): Account {
    match a
    case UserAccount(active, phone, completed, photo, profile) => UserAccount(active, phone, completed, photo, profile + dto)
    case AdminAccount(active, username, photo, profile) => AdminAccount(active, username, photo, profile + dto)
  }

  function Completed(a: Account, dto: Profile): Account {
    match Merged(a, dto)
    case UserAccount(active, phone, _, photo, profile) => UserAccount(active, phone, true, photo, profile)
    case other => other
  }

  function Renamed(a: Account, name: string): Account {
    match a
    case AdminAccount(active, _, photo, profile) => AdminAccount(active, name, photo, profile)
    case other => other
  }

  function WithActive(a: Account, active: bool): Account {
    match a
    case UserAccount(_, phone, completed, photo, profile) => UserAccount(active, phone, completed, photo, profile)
    case AdminAccount(_, username, photo, profile) => AdminAccount(active, username, photo, profile)
  }

  datatype Db = Db(rows: map<AccountId, Account>, passwords: map<nat, string>, nextUser: nat)

  datatype Entry = Entry(value: Account, expiresAt: int)

  /** Noop drops every write; Redis keeps an entry until it expires or is deleted. */
  datatype Driver = Noop | Redis(entries: map<AccountId, Entry>)

  const AUTH_USER_SECONDS := 300

  // ---------- Cache keys ----------

  const ADMIN := "admin"
  const USER := "user"

  function RoleName(role: Role): string {
    match role case Admin => ADMIN case User => USER
  }

  /** authUser: `auth:user:<role>:<userId>`. */
  function CacheKey(prefix: string, a: AccountId): string {
    prefix + RoleName(a.role) + ":" + Decimal(a.id)
  }

  /** Two accounts never share a cache key, so the cache is a map from accounts. */
  lemma CacheKeyInjective(prefix: string, a: AccountId, b: AccountId)
    requires CacheKey(prefix, a) == CacheKey(prefix, b)
    ensures a == b
  {
    var n := |prefix|;
    assert CacheKey(prefix, a)[n] == RoleName(a.role)[0] && CacheKey(prefix, b)[n] == RoleName(b.role)[0];
    var m := n + |RoleName(a.role)| + 1;
    assert CacheKey(prefix, a)[m..] == Decimal(a.id) && CacheKey(prefix, b)[m..] == Decimal(b.id);
    ParseDecimal(a.id);
    ParseDecimal(b.id);
  }

  // ---------- The cache ----------

  function CacheGet(driver: Driver, key: AccountId, now: int): Option<Account> {
    if driver.Redis? && key in driver.entries && driver.entries[key].expiresAt > now
    then Some(driver.entries[key].value) else None
  }

  function CacheSet(driver: Driver, key: AccountId, value: Account, now: int): Driver {
    if driver.Noop? then driver else Redis(driver.entries[key := Entry(value, now + AUTH_USER_SECONDS * 1000)])
  }

  function CacheDelete(driver: Driver, key: AccountId): Driver {
    if driver.Noop? then driver else Redis(driver.entries - {key})
  }

  function Lookup(rows: map<AccountId, Account>, a: AccountId): Option<Account> {
    if a in rows then Some(rows[a]) else None
  }

  /** Read-through; a missing account is not cached. */
  function ReadThrough(driver: Driver, key: AccountId, loaded: Option<Account>, now: int): (Driver, Option<Account>) {
    match CacheGet(driver, key, now)
    case Some(value) => (driver, Some(value))
    case None => (if loaded.Some? then CacheSet(driver, key, loaded.value, now) else driver, loaded)
  }

  // ---------- The guard ----------

  /** What a verified access token says. */
  datatype Claims = Claims(role: string, userId: nat)

  /** `claims` is None when the token does not verify; `required` lists the route's roles. */
  datatype HttpRequest = HttpRequest(isPublic: bool, authorization: Option<string>, claims: Option<Claims>, required: seq<Role>)

  datatype Verdict =
    | Public
    | MissingToken
    | InvalidToken
    | ForbiddenRole
    | AccountNotFound
    | AccountDisabled
    | Admitted(principal: Account)

  const BEARER := "Bearer"

  function ExtractBearerToken(header: string, scheme: string): Option<string> {
    var parts := Split(header, ' ');
    if parts[0] == scheme && |parts| > 1 && parts[1] != "" then Some(parts[1]) else None
  }

  function CoerceRole(name: string): Option<Role> {
    if name == ADMIN then Some(Admin) else if name == USER then Some(User) else None
  }

  /** The account a request asks for, or the verdict that ends it before any lookup. */
  datatype Screening = Stopped(verdict: Verdict) | Asks(account: AccountId)

  function Screen(request: HttpRequest): Screening {
    if request.isPublic then Stopped(Public)
    else if request.authorization.None? || ExtractBearerToken(request.authorization.value, BEARER).None? then Stopped(MissingToken)
    else if request.claims.None? then Stopped(InvalidToken)
    else
      match CoerceRole(request.claims.value.role)
      case None => Stopped(InvalidToken)
      case Some(role) =>
        if request.required != [] && role !in request.required then Stopped(ForbiddenRole)
        else Asks(AccountId(role, request.claims.value.userId))
  }

  function Judge(found: Option<Account>): Verdict {
    match found
    case None => AccountNotFound
    case Some(account) => if !account.isActive then AccountDisabled else Admitted(account)
  }

  // ---------- The service calls ----------

  datatype AdminChanges = AdminChanges(username: Option<string>, password: Option<string>, profile: Profile)

  datatype Call =
    | Authenticate(request: HttpRequest)
    | UploadPhoto(user: nat, key: string)
    | UpdateMe(user: nat, dto: Profile, cityMissing: bool)
    | CompleteProfile(user: nat, dto: Profile, cityMissing: bool)
    | Deactivate(user: nat)
    | Activate(user: nat)
    | FindOrCreate(phone: string)
    | CreateByAdmin(phone: string, dto: Profile, cityMissing: bool)
    | AdminUploadPhoto(admin: nat, key: string)
    | AdminUpdateMe(admin: nat, changes: AdminChanges, currentPassword: string)

  datatype Error =
    | NotFound
    | CityNotFound
    | ProfileAlreadyCompleted
    | PhoneTaken
    | InvalidCredentials
    | CurrentPasswordIncorrect
    | UsernameTaken

  /** `sessionsRevoked` tells whether the call revoked the account's refresh tokens. */
  datatype Outcome =
    | Judged(verdict: Verdict)
    | Failed(error: Error)
    | Saved(account: Account, sessionsRevoked: bool)

  /** What a call does to the database; the cache is not involved in deciding it. */
  datatype Effect =
    | NoWrite(outcome: Outcome)
    | Update(id: AccountId, account: Account, sessionsRevoked: bool, password: Option<string>)
    | Create(account: Account)

  function UserRow(db: Db, user: nat): Option<Account> {
    var a := AccountId(User, user);
    if a in db.rows && db.rows[a].UserAccount? then Some(db.rows[a]) else None
  }

  function AdminRow(db: Db, admin: nat): Option<Account> {
    var a := AccountId(Admin, admin);
    if a in db.rows && db.rows[a].AdminAccount? then Some(db.rows[a]) else None
  }

  predicate HasPhone(rows: map<AccountId, Account>, a: AccountId, phone: string) {
    a in rows && a.role == User && rows[a].UserAccount? && rows[a].phone == phone
  }

  /** findByPhone: phones are unique. */
  ghost function PhoneOwner(rows: map<AccountId, Account>, phone: string): Option<AccountId> {
    if a :| HasPhone(rows, a, phone) then Some(a) else None
  }

  ghost predicate UsernameTakenBy(rows: map<AccountId, Account>, username: string, admin: nat) {
    exists a :: a in rows && a.role == Admin && rows[a].AdminAccount? && rows[a].username == username && a.id != admin
  }

  function UserEffect(db: Db, user: nat, change: Account -> Account, sessionsRevoked: bool): Effect {
    match UserRow(db, user)
    case None => NoWrite(Failed(NotFound))
    case Some(row) => Update(AccountId(User, user), change(row), sessionsRevoked, None)
  }

  function CompleteEffect(db: Db, user: nat, dto: Profile, cityMissing: bool): Effect {
    match UserRow(db, user)
    case None => NoWrite(Failed(NotFound))
    case Some(row) =>
      if row.isProfileCompleted then NoWrite(Failed(ProfileAlreadyCompleted))
      else if cityMissing then NoWrite(Failed(CityNotFound))
      else Update(AccountId(User, user), Completed(row, dto), false, None)
  }

  ghost function AdminUpdateEffect(db: Db, admin: nat, changes: AdminChanges, currentPassword: string): Effect {
    var credentials := changes.username.Some? || changes.password.Some?;
    match AdminRow(db, admin)
    case None => NoWrite(Failed(InvalidCredentials))
    case Some(row) =>
      if credentials && !(admin in db.passwords && db.passwords[admin] == currentPassword)
      then NoWrite(Failed(CurrentPasswordIncorrect))
      else if changes.username.Some? && changes.username.value != row.username && UsernameTakenBy(db.rows, changes.username.value, admin)
      then NoWrite(Failed(UsernameTaken))
      else
        var username := if changes.username.Some? then changes.username.value else row.username;
        Update(AccountId(Admin, admin), Renamed(Merged(row, changes.profile), username), credentials, changes.password)
  }

  ghost function EffectOf(db: Db, call: Call): Effect {
    match call
    case Authenticate(request) => NoWrite(Judged(Public))
    case UploadPhoto(user, key) => UserEffect(db, user, (row: Account) => WithPhoto(row, key), false)
    case UpdateMe(user, dto, cityMissing) =>
      if cityMissing then NoWrite(Failed(CityNotFound))
      else UserEffect(db, user, (row: Account) => Merged(row, dto), false)
    case CompleteProfile(user, dto, cityMissing) => CompleteEffect(db, user, dto, cityMissing)
    case Deactivate(user) => UserEffect(db, user, (row: Account) => WithActive(row, false), true)
    case Activate(user) => UserEffect(db, user, (row: Account) => WithActive(row, true), false)
    case FindOrCreate(phone) =>
      var found := PhoneOwner(db.rows, phone);
      if found.Some? then NoWrite(Saved(db.rows[found.value], false))
      else Create(UserAccount(true, phone, false, None, map[]))
    case CreateByAdmin(phone, dto, cityMissing) =>
      if PhoneOwner(db.rows, phone).Some? then NoWrite(Failed(PhoneTaken))
      else if cityMissing then NoWrite(Failed(CityNotFound))
      else Create(UserAccount(true, phone, true, None, dto))
    case AdminUploadPhoto(admin, key) =>
      (match AdminRow(db, admin)
       case None => NoWrite(Failed(InvalidCredentials))
       case Some(row) => Update(AccountId(Admin, admin), WithPhoto(row, key), false, None))
    case AdminUpdateMe(admin, changes, currentPassword) => AdminUpdateEffect(db, admin, changes, currentPassword)
  }

  datatype World = World(db: Db, driver: Driver)

  function Written(w: World, effect: Effect): (World, Outcome) {
    match effect
    case NoWrite(outcome) => (w, outcome)
    case Update(id, account, revoked, password) =>
      var passwords := if password.Some? then w.db.passwords[id.id := password.value] else w.db.passwords;
      (World(w.db.(rows := w.db.rows[id := account], passwords := passwords), CacheDelete(w.driver, id)), Saved(account, revoked))
    case Create(account) =>
      var id := AccountId(User, w.db.nextUser);
      (World(w.db.(rows := w.db.rows[id := account], nextUser := w.db.nextUser + 1), w.driver), Saved(account, false))
  }

  function Guarded(w: World, request: HttpRequest, now: int): (World, Outcome) {
    match Screen(request)
    case Stopped(verdict) => (w, Judged(verdict))
    case Asks(a) =>
      var (driver, found) := ReadThrough(w.driver, a, Lookup(w.db.rows, a), now);
      (w.(driver := driver), Judged(Judge(found)))
  }

  ghost function Apply(w: World, call: Call, now: int): (World, Outcome) {
    if call.Authenticate? then Guarded(w, call.request, now) else Written(w, EffectOf(w.db, call))
  }

  /** Phones are unique, and users' ids are below the next one. */
  ghost predicate Sound(db: Db) {
    && (forall a, b, phone :: HasPhone(db.rows, a, phone) && HasPhone(db.rows, b, phone) ==> a == b)
    && (forall a :: a in db.rows && a.role == User ==> a.id < db.nextUser)
  }
}
